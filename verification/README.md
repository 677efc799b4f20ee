# Globs, ignore rules, templates and blame: a verified model of ripgrep's matching core

This project models, in Dafny, the parts of ripgrep whose correctness is not evident from reading one
function at a time, and proves what they promise.

* **The glob engine** (`crates/globset`). `GlobParser`, `Parser` and `ParserInvariants` hold the parser
  with its stack of alternates and its one-shot rollback; `PrintedGlobs` writes token trees as globs
  that parse back to them, and `ParsedGlobs` shows which trees there are. `Compiler` turns tokens into
  an expression of a small algebra (`Regexes`), and `CompilerProofs`, `Languages`, `BraceExpansion` and
  `Components` say what the expressions mean. `Strategies` and `StrategyProofs` hold the extractors that
  let a set answer without running expressions; `IndexVectors`, `GlobSetStrategies`, `GlobSetTables` and
  `GlobSetMatching` build the seven tables and prove what a set answers. `RepeatedStars`, `InnerStars`,
  `TrailingStars`, `ReplacedTokens`, `PlainGlobs`, `Escape` and `EscapeLimits` prove laws of whole
  globs. `ClassMeanings`, `Utf8Decoding`, `GlobTexts`, `ClassTexts` and `BraceTexts` say which paths
  globs match as they are written.
* **The ignore matchers** (`crates/ignore`). `Gitignore`, `GitignoreBuilding` and `LineMeanings` go from
  the lines of a gitignore file to verdicts on paths made relative as in `RelativePaths`, `Overrides`
  and `FileTypes` do the same for the other two kinds of rule. `LineTexts` and `GlobLines` go from the
  text of a line to its verdict, and `TypeDefinitions` from the text of a type definition to the names
  it matches. `PathTexts` is about paths as they are written. `IgnoreWalks` compares asking from below
  with walking from the top. `IgnoreChains` and `ChainRules` combine six sources along the directories
  above a path, where a repository shields git rules, and `ChainVerdicts` tells the result by the single
  matchers; `IgnoreParents` builds the chains, with a cache, and `FilesRead` says which files they
  depend on. `SharedBases` says what sharing chains does to verdicts, and `SharedWalks` lets many
  workers build them at the same time.
* **Replacement templates** (`crates/matcher`): `Interpolate`, `Templates` and `References`, with
  `Decimals`.
* **Blame** (`crates/cli`): `Blame` parses the porcelain format, `BlameListings` proves the round trip,
  `BlameMeanings` takes single entries, `BlameCaching` treats the cache that threads share as a state
  machine over its locked steps.

Loops and in-place updates of the source are methods with invariants; each is proved equal to a
specification function, or to a property of the whole result, and the theorems are about those. Paths
are sequences of bytes, globs are sequences of Unicode scalar values. The Unix configuration is
modelled. `Option`, `Result` and `Outcome` stand for missing values and errors.

Twelve facts about the code shape the statements.

* A path whose last component is `..` has no base name and no extension, so there, and only there, a set
  can differ from its expressions (`SetIsExactUnlessDotDot`): it leaves out the globs that it files by
  name or extension, and no others (`StrategyExactly`).
* `prefix` and `suffix` are right exactly where `literal` gives nothing, which the order of choices in
  `MatchStrategy::new` ensures (`PrefixNeedsItsShield`, `SuffixNeedsItsShield`).
* `escape` leaves a backslash as it is, so where backslashes escape it works exactly for the strings
  without one (`EscapeWorksExactlyWithoutBackslash`). Where case does not matter the other spellings of
  the string are matched too (`EscapeMatchesOnlyItself`).
* Inside braces a comma or an opening brace in front of `**` is taken for the start of a branch even if
  a backslash escapes it, and is then lost: `{\,**/x}` is read as `{/**/x}` (`EscapedCommaIsLost`).
* `?` takes one byte, while the documentation speaks of any single character; it takes exactly the ASCII
  ones (`QuestionMarkTakesOneByte`). The code is followed.
* In a class `lo-mid-hi` is the range from lo to hi, so `[a-z-c]` is `[a-c]` (`RangesAreJoined`).
* A comment in `add_line` says that a trailing `/**` would match the directory itself. It does not, and
  the rewrite to `/**/*` changes nothing (`InsideDirectory`, `RewriteKeepsMeaning`).
* `matched_path_or_any_parents` stops at the nearest verdict, and asks about the root as well. A walk
  from the top does not enter an ignored directory, as gitignore(5) says, and never asks about its root.
  So the two differ, and differ only, for what is whitelisted inside an ignored directory and where
  nothing but the root is ignored (`WalkAgreesUnless`).
* The blame parser shortens a hash by cutting its bytes, which fails exactly if the eighth byte is
  inside a character (`CutsExactly`, `ParsedFailsIf`); hashes are ASCII (`FirstBytesOfAscii`).
* A chain of directory matchers served from the cache carries the base path of the walk that built it,
  not of the walk that asks (`AddParentsOfSiblings`); in all else it is the uncached chain. The
  directories above are then asked about other paths, so a rule like `/b/x` can be missed
  (`SecondWalkMissesRule`); it never matters what rules there are exactly if the base paths are the same
  (`SharingIsHarmlessIf`).
* `add_parents` takes a directory for a repository only if `.gitignore` files are read, `add_child` also
  if only exclude files are. So with those alone a repository above the walk is not noticed
  (`ExcludeRulesAboveWalkNeverCount`).
* A name that ends in a dot counts as no name: `.x.` is not hidden (`HiddenExactly`), and once a type is
  selected `foo.` is ignored (`NamelessExactly`).

## Model

| member | source | states |
|---|---|---|
| CompilerProofs.CompileCorrect | crates/globset/src/glob.rs:692-763 | the expression emitted for any token tree matches exactly the strings of the tree's meaning, defined without expressions |
| CompilerProofs.TokenCorrect | crates/globset/src/glob.rs:698-760 | the same for one token, nested alternates included |
| CompilerProofs.MatchRecursivePrefix | crates/globset/src/glob.rs:717-719 | `**/` at the start denotes exactly the empty string and whatever ends with a slash |
| CompilerProofs.MatchRecursiveSuffix | crates/globset/src/glob.rs:720-722 | `/**` at the end denotes exactly what starts with a slash |
| CompilerProofs.MatchRecursiveZeroOrMore | crates/globset/src/glob.rs:723-725 | `/**/` denotes exactly what starts with a slash and ends with one, be it the same |
| CompilerProofs.EmptyExpression | crates/globset/src/glob.rs:743-760 | which token sequences emit nothing, the test by which empty branches are dropped |
| ClassMeanings.FoldingRelatesLetters | crates/globset/src/glob.rs:676-678 | where case does not matter exactly A to Z and a to z are taken for each other |
| ClassMeanings.AsciiClassMatches | crates/globset/src/glob.rs:726-741 | a class of ASCII characters matches one byte: one between the ends of a range, itself or in its other case where case does not matter, or, negated, one that is not |
| ClassMeanings.ClassMatches | crates/globset/src/glob.rs:726-741 | the same for any characters, whose bytes are written one by one, so that the dash joins the last byte of one and the first of the other |
| Utf8Decoding.CharIsDecoded | crates/globset/src/glob.rs:768-789 | the bytes of any character are read back as that character, and there are as many as its code point needs |
| Utf8Decoding.EncodingIsInjective | crates/globset/src/glob.rs:768-789 | different texts are different bytes |
| BraceExpansion.ExpansionLang | crates/globset/src/glob.rs:692-763 | the meaning of a tree is the union of the meanings of its brace expansions, one branch chosen per group at every depth |
| BraceExpansion.BracesAreUnions | crates/globset/src/glob.rs:743-760 | the expression emitted matches exactly what the expression of some expansion matches, and expansions hold no groups |
| Components.ComponentWise | crates/globset/src/glob.rs:698-716 | under `literal_separator`, tokens of literals and simple wildcards match component by component |
| Components.SimpleGlobsMatchByComponent | crates/globset/src/glob.rs:698-716 | such a glob matches a path iff both split at slashes into equally many pieces that match pairwise |
| Components.QuestionMarkTakesOneByte | crates/globset/src/glob.rs:703-709 | of the single characters `?` matches exactly the ASCII ones, the slash only where it is no separator |
| Paths.LastComponentCut | crates/globset/src/pathutil.rs:9-26 | there is just one way to cut a path into whole leading components and a part without slashes |
| Paths.ExtensionCut | crates/globset/src/pathutil.rs:44-62 | when a path ends in a dot and given text, in terms of the extension under which it is looked up |
| Strategies.ExtractLiteral | crates/globset/src/glob.rs:334-345 | the loop gives the specified literal |
| Strategies.ExtractExt | crates/globset/src/glob.rs:353-382 | the loop gives the specified extension |
| Strategies.ExtractRequiredExt | crates/globset/src/glob.rs:390-414 | the backward loop gives the specified required extension |
| Strategies.ExtractPrefix | crates/globset/src/glob.rs:419-448 | the loop gives the specified prefix |
| Strategies.ExtractSuffix | crates/globset/src/glob.rs:462-497 | the loop gives the specified suffix and whether it is a component suffix |
| Strategies.ExtractBasenameTokens | crates/globset/src/glob.rs:510-552 | the scan gives the specified base name tokens |
| Strategies.ExtractBasenameLiteral | crates/globset/src/glob.rs:559-567 | the loop gives the specified base name |
| Strategies.NewStrategy | crates/globset/src/glob.rs:51-67 | the chain of choices gives the specified strategy |
| StrategyProofs.BasenameTokensSound | crates/globset/src/glob.rs:499-552 | a glob with base name tokens matches a path iff those tokens alone match what follows the last slash |
| StrategyProofs.LiteralSound | crates/globset/src/glob.rs:334-345 | a literal glob matches exactly that path |
| StrategyProofs.BasenameLiteralSound | crates/globset/src/glob.rs:559-567 | a base name glob matches exactly the paths with that last component |
| StrategyProofs.ExtSound | crates/globset/src/glob.rs:353-382 | an extension glob matches exactly the paths filed under that extension |
| StrategyProofs.RequiredExtSound | crates/globset/src/glob.rs:390-414 | whatever a glob with a required extension matches is filed under it |
| StrategyProofs.PrefixSound | crates/globset/src/glob.rs:419-448 | where there is no literal, a glob with a prefix matches exactly the paths that start with it |
| StrategyProofs.SuffixSound | crates/globset/src/glob.rs:462-497 | where there is no literal, a glob with a suffix matches exactly the paths that end with it, or are it without its slash |
| StrategyProofs.PrefixNeedsItsShield | crates/globset/src/glob.rs:51-67 | the prefix decides the glob for all paths iff the glob has no literal |
| StrategyProofs.SuffixNeedsItsShield | crates/globset/src/glob.rs:51-67 | the suffix decides the glob for all paths iff the glob has no literal |
| StrategyProofs.StrategySound | crates/globset/src/glob.rs:51-67 | for any glob and any path not ending in `..`, the chosen strategy answers as the glob's own expression |
| GlobSetMatching.StrategyExactly | crates/globset/src/glob.rs:51-67 | for any glob and any path at all, the chosen strategy answers as the expression, but for a path ending in `..` never with a glob filed by name or extension |
| IndexVectors.AscendingUnique | crates/globset/src/lib.rs:442-457 | a strictly ascending vector is determined by its elements |
| IndexVectors.IndexVector.Sort | crates/globset/src/lib.rs:454 | the vector is a sorted permutation of what it was |
| IndexVectors.IndexVector.Dedup | crates/globset/src/lib.rs:455 | the same elements, and a sorted vector becomes strictly ascending |
| GlobSetStrategies.FindOverlapping | crates/globset/src/lib.rs:793-822 | exactly all occurrences of all literals, overlapping ones included |
| GlobSetStrategies.HashTable.Add | crates/globset/src/lib.rs:704-706 | one more position under the key, all else unchanged |
| GlobSetStrategies.MultiStrategyBuilder.Add | crates/globset/src/lib.rs:947-953 | the literal and its position are appended and the longest length is kept |
| GlobSetStrategies.GlobSetMatchStrategy.IsMatch | crates/globset/src/lib.rs:665-676 | a table matches iff it reports some position |
| GlobSetStrategies.GlobSetMatchStrategy.MatchesInto | crates/globset/src/lib.rs:678-692 | exactly the positions the table reports are added to the vector |
| GlobSetTables.FileOneTallies | crates/globset/src/lib.rs:479-514 | filing one more glob, in two tables if need be, keeps the tables an exact record of all strategies |
| GlobSetTables.PrefixReports | crates/globset/src/lib.rs:793-822 | cutting the path to the longest literal hides no prefix |
| GlobSetTables.SuffixReports | crates/globset/src/lib.rs:825-854 | cutting the path to the longest literal hides no suffix |
| GlobSetTables.AssembleReports | crates/globset/src/lib.rs:526-553 | leaving out empty tables loses no report |
| GlobSetTables.TablesAnswer | crates/globset/src/lib.rs:461-553 | the tables together report a position iff the strategy filed there answers for the path |
| GlobSetMatching.New | crates/globset/src/lib.rs:461-553 | the set built from a list of globs represents that list |
| GlobSetMatching.GlobSet.IsMatchCandidate | crates/globset/src/lib.rs:350-360 | some glob of the list answers |
| GlobSetMatching.GlobSet.MatchesCandidateInto | crates/globset/src/lib.rs:442-457 | the vector ends up strictly ascending, with exactly the positions of the globs that answer |
| GlobSetMatching.GlobSet.MatchesInto | crates/globset/src/lib.rs:425-431 | for every path the vector is the ascending list of the positions the set stands for; unless the path ends in `..` these are exactly those whose own expression matches |
| GlobSetMatching.GlobSet.IsMatch | crates/globset/src/lib.rs:342-344 | true iff that list is not empty, for every path |
| GlobSetMatching.MatchingPositions | crates/globset/src/lib.rs:442-457 | strictly ascending, and holds a position iff the glob there matches |
| GlobSetMatching.SetPositions | crates/globset/src/lib.rs:442-457 | strictly ascending, and holds a position iff the glob there matches and is not looked up by a name the path lacks |
| GlobSetMatching.SetIsExact | crates/globset/src/lib.rs:442-457 | both lists are the same for every path that does not end in `..` |
| GlobSetMatching.DotDotDiffers | crates/globset/src/pathutil.rs:9-26 | for every path that ends in `..` some glob matches that its strategy misses |
| LineMeanings.DotDotGlobIsParsed | crates/globset/src/glob.rs:579-610 | the glob at which they differ is what the parser makes of `**/..` |
| GlobSetMatching.SetIsExactUnlessDotDot | crates/globset/src/pathutil.rs:9-26 | all sets are exact on a path iff its last component is not `..` |
| Parser.Parser.Parse | crates/globset/src/glob.rs:823-837 | the loop reaches the specified outcome without a failing assertion, with at most n + 2 bumps, or 2n + 2 where unclosed classes are allowed |
| Parser.Parser.ParseStarChar | crates/globset/src/glob.rs:901-960 | the step of a star on the parser's fields is the specified one |
| Parser.Parser.ParseClassChars | crates/globset/src/glob.rs:962-1052 | the step of a class, rollback included, is the specified one |
| Parser.BuildGlob | crates/globset/src/glob.rs:579-610 | the glob or the error of the specified parse, for every string and all options |
| GlobParser.ParseLoop | crates/globset/src/glob.rs:823-837 | on success all characters have been read and the stack fits the branches |
| GlobParser.ParseClassShape | crates/globset/src/glob.rs:962-1052 | reading a class, or rolling it back, leaves the stack as it was and no more characters unread than before |
| ParserInvariants.RoundKeeps | crates/globset/src/glob.rs:823-1052 | every round keeps the invariant on branches, stack and classes |
| ParserInvariants.ReachableStates | crates/globset/src/glob.rs:839-874 | in every reachable state there are two branches or more iff the stack is not empty |
| ParserInvariants.ParsedGlobsAreWellFormed | crates/globset/src/glob.rs:579-610 | in every branch a recursive prefix comes only first and a recursive suffix only last, and classes have ranges, each with lo <= hi |
| ReplacedTokens.ReplacedTokenIsSlash | crates/globset/src/glob.rs:901-960 | while any glob is parsed, the token that a recursive form replaces is a slash or a recursive form, unless inside braces the stars follow an escaped comma or brace, and then it is that character |
| ReplacedTokens.EscapedCommaIsLost | crates/globset/src/glob.rs:919-922 | `{\,**/x}` is parsed as `{/**/x}` |
| GlobTexts.StarsAtEndMatchAll | crates/globset/src/glob.rs:908-915 | `**`, and `**/` any number of times in front of it, matches every path, whatever the options |
| GlobTexts.StarsInFrontMatch | crates/globset/src/glob.rs:908-915 | `**/` in front of plain text matches it below any directories, or none |
| GlobTexts.StarsInsideMatch | crates/globset/src/glob.rs:919-958 | `/**/` between plain texts matches a slash, or directories with a slash before and behind them |
| GlobTexts.StarsBehindMatch | crates/globset/src/glob.rs:919-958 | `/**` behind plain text matches what starts with that text and a slash |
| GlobTexts.InnerStarsAtEnd | crates/globset/src/glob.rs:919-958 | `/**` and `/**/**` behind plain text are read alike |
| GlobTexts.StarsThatAreNoComponent | crates/globset/src/glob.rs:908-943 | two stars that do not make up a component are two single ones |
| GlobTexts.WildcardMatches | crates/globset/src/glob.rs:703-716 | `*` between plain texts matches any bytes and `?` one, both without slashes where `literal_separator` asks for it |
| GlobTexts.PlainTextMatches | crates/globset/src/glob.rs:692-702 | plain text matches its own bytes, or the same letters in any case where case does not matter |
| GlobTexts.EscapedText | crates/globset/src/glob.rs:887-899 | behind a backslash that escapes every character stands for itself |
| GlobTexts.BackslashText | crates/globset/src/glob.rs:887-899 | a backslash that does not escape is an ordinary character |
| GlobTexts.MisplacedCharacters | crates/globset/src/glob.rs:849-899 | a backslash at the end is a dangling escape, and a closing brace without an opening one is an error |
| ClassTexts.CaretIsBang | crates/globset/src/glob.rs:962-1052 | `[^` is read as `[!` is, from any state and whatever follows, errors included, unless the bracket is never closed and stands for itself |
| ClassTexts.RangeTextMatches | crates/globset/src/glob.rs:962-1052 | `[lo-hi]`, and with `!` or `^` its negation, matches the bytes from lo to hi; ends in the wrong order are an error that names them |
| ClassTexts.RangesAreJoined | crates/globset/src/glob.rs:1005-1035 | `[lo-mid-hi]` is the range from lo to hi, however mid compares with hi |
| ClassTexts.ListTextMatches | crates/globset/src/glob.rs:962-1052 | listed characters match themselves, with `]` and `-` in first and `-` in last place meaning themselves |
| ClassTexts.OpenBracketText | crates/globset/src/glob.rs:962-1052 | a bracket that is not closed is an error, or where that is allowed stands for itself |
| BraceTexts.GroupTextMatches | crates/globset/src/glob.rs:743-760 | `f{a,b}` matches fa and fb; an empty alternative counts only where that is asked for or nothing else is left |
| BraceTexts.OpenBraceText | crates/globset/src/glob.rs:579-610 | a brace that nothing closes is an error |
| PrintedGlobs.PrintedGlobsParse | crates/globset/src/glob.rs:823-1052 | any token tree in canonical form, nested groups, classes with brackets and dashes and adjacent stars included, is written as a glob that parses to exactly that tree |
| PrintedGlobs.PrintingIsInjective | crates/globset/src/glob.rs:823-1052 | different trees are written differently |
| ParsedGlobs.ParsedIsCanonical | crates/globset/src/glob.rs:823-1052 | where backslashes escape, the tokens of every glob that parses are in canonical form: what classes hold, where recursive forms stand and which pairs of stars are left |
| ParsedGlobs.ParserTreesExactly | crates/globset/src/glob.rs:823-1052 | where backslashes escape, the trees that the parser gives are exactly those in canonical form |
| ParsedGlobs.NormalForm | crates/globset/src/glob.rs:823-1052 | where backslashes escape, every glob that parses has a normal form with the same tokens, which is its own normal form |
| RepeatedStars.CopiesCollapse | crates/globset/src/glob.rs:901-960 | from any state at the start of a component, n copies of `**/` lead to the same outcome as one, whatever follows |
| RepeatedStars.LeadingCopiesCollapse | crates/globset/src/glob.rs:901-960 | copies at the start of a glob give the same tokens or error as one |
| InnerStars.TailDoesNotMatter | crates/globset/src/glob.rs:823-837 | up to a slash outside classes the parse goes the same way, fails alike or gets to the same state, whatever text follows the slash |
| InnerStars.InnerCopiesCollapse | crates/globset/src/glob.rs:901-960 | so do copies behind a slash after any beginning, braces, classes, wildcards and errors included, unless a class is open there and closed later; one that is never closed is read again as text |
| Escape.EscapeString | crates/globset/src/lib.rs:1035-1052 | the loop gives the specified escaped string |
| Escape.EscapedPiecewise | crates/globset/src/lib.rs:1035-1052 | six characters are put into brackets wherever they stand, and every other character is left as it is |
| Escape.EscapeRoundTrip | crates/globset/src/lib.rs:1018-1052 | where backslashes do not escape or the string has none, the escaped string parses and matches exactly the string's bytes, up to the case of ASCII letters if case does not matter |
| EscapeLimits.EscapeWorksExactlyWithoutBackslash | crates/globset/src/lib.rs:1018-1052 | for all options the round trip holds iff backslashes do not escape or the string has none |
| EscapeLimits.EscapeMatchesOnlyItself | crates/globset/src/lib.rs:1018-1052 | the escaped string matches the string and nothing else iff, further, case matters or the string has no ASCII letter |
| EscapeLimits.BackslashIsNotMatched | crates/globset/src/lib.rs:1018-1052 | where escaping fails and still parses, the string itself is not matched |
| TrailingStars.TrailingFormsAgree | crates/ignore/src/gitignore.rs:509-514 | after any tokens, a recursive suffix matches what the rewritten ending matches |
| TrailingStars.InsideDirectory | crates/ignore/src/gitignore.rs:509-514 | for all options, after a literal a recursive suffix matches exactly what lies inside, never the directory itself, however its case |
| TrailingStars.RewriteKeepsMeaning | crates/ignore/src/gitignore.rs:509-514 | for every glob and all options, `/**` and `/**/*` at the end parse alike and match the same paths |
| Gitignore.AddLineKeepsAligned | crates/ignore/src/gitignore.rs:447-528 | adding a line, failing or not, keeps rules and parsed globs index-aligned |
| Gitignore.CountsAddUp | crates/ignore/src/gitignore.rs:338-352 | ignore rules and whitelist rules add up to all rules |
| Gitignore.ScanBackIsLastVerdict | crates/ignore/src/gitignore.rs:255-269 | scanning the set's matches backwards gives the verdict of the naive scan over all rules |
| RelativePaths.StripInside | crates/ignore/src/gitignore.rs:275-304 | stripping a directory from a path inside it gives the path relative to it |
| RelativePaths.ParentOfEntry | crates/ignore/src/gitignore.rs:237-243 | going up from an entry of a directory leads to the directory |
| PathTexts.ParentOfName | crates/ignore/src/gitignore.rs:237-243 | going up from a name alone leads to the root of the matcher |
| PathTexts.EndIsTrimmed | crates/ignore/src/gitignore.rs:237-243 | slashes and lone dots at the end of a path mean nothing on the way up |
| PathTexts.NotStripped | crates/ignore/src/gitignore.rs:275-304 | a path keeps all but `./` if the root is `.`, it is a bare file name, or it does not start with the root |
| Gitignore.Gitignore.MatchedStripped | crates/ignore/src/gitignore.rs:248-271 | for every path, the verdict of the last rule that applies: the set matches its glob, and it is not for directories only unless the path is one; unless the path ends in `..`, of the last rule whose own expression matches |
| Gitignore.LastVerdictByExpression | crates/ignore/src/gitignore.rs:248-271 | scanning by what the set says is scanning by the rules' own expressions, for every list and every path that does not end in `..` |
| Gitignore.Gitignore.Matched | crates/ignore/src/gitignore.rs:191-304 | the matcher that a directory contributes to a chain is its rule list read from last to first on the path with the matcher's root stripped |
| Gitignore.Gitignore.MatchedPathOrAnyParents | crates/ignore/src/gitignore.rs:223-245 | the path's own verdict, or else that of the nearest directory above with one, up to the root |
| PathTexts.RootsAreClean | crates/ignore/src/gitignore.rs:324-333 | `./` in front of the root of a matcher means nothing |
| IgnoreWalks.WalkAgreesUnless | crates/ignore/src/walk.rs:1057-1073 | it ignores the same paths as a walk that goes down from the root, without asking about it, and stops at ignored directories, iff the path is not whitelisted inside such a directory and not ignored by the root alone |
| IgnoreWalks.WalkIgnoresIf | crates/ignore/src/walk.rs:1057-1073 | such a walk ignores a path iff the path or a directory above it, the root apart, is ignored |
| IgnoreWalks.NearestVerdictDecides | crates/ignore/src/gitignore.rs:223-245 | asking from below gives the nearest verdict on the way up |
| IgnoreWalks.RootDecides | crates/ignore/src/gitignore.rs:223-245 | and that on the root if there is none nearer |
| IgnoreWalks.IgnoredBelowIsIgnored | crates/ignore/src/gitignore.rs:223-245 | what it ignores such a walk ignores too, but for what only the root ignores |
| IgnoreWalks.NoWhitelistNoDifference | crates/ignore/src/gitignore.rs:223-245 | without whitelist rules the two ignore the same iff it is not the root alone that is ignored |
| IgnoreWalks.WhitelistInsideIgnoredDirectory | crates/ignore/src/gitignore.rs:223-245 | the lines `a` and `!a/b` whitelist `a/b` from below and ignore it from the top |
| IgnoreWalks.RootIsNotAsked | crates/ignore/src/gitignore.rs:237-243 | the line `/` ignores the file `x` from below, and nothing from the top |
| PathTexts.DirectoryRuleCoversContents | crates/ignore/src/gitignore.rs:223-245 | the line `s/` ignores what is in any `s`, from below too: the directories above are asked about as directories |
| GitignoreBuilding.GitignoreBuilder.AddLine | crates/ignore/src/gitignore.rs:447-528 | the rule list grows by the line's rule if it has a good one; an error changes nothing |
| GitignoreBuilding.GitignoreBuilder.AddLines | crates/ignore/src/gitignore.rs:392-421 | every line is added, and exactly the bad ones are reported with their numbers |
| GitignoreBuilding.GitignoreBuilder.Build | crates/ignore/src/gitignore.rs:338-352 | the matcher holds the set of the rules and their counts |
| GitignoreBuilding.LinesDecide | crates/ignore/src/gitignore.rs:447-528 | after all lines, bad ones included, the rule list says what reading the lines from last to first says |
| GitignoreBuilding.MatchFile | crates/ignore/src/gitignore.rs:191-271 | adding the lines of a file, building with any root and options and matching gives the verdict of the last line that applies to the stripped path, and by expressions alone unless that ends in `..` |
| LineTexts.LastApplyingLine | crates/ignore/src/gitignore.rs:248-271 | of the lines whose glob matches the last one ignores the path, or whitelists it if it is negated, and is named in the verdict |
| LineTexts.NoLineApplies | crates/ignore/src/gitignore.rs:248-271 | where no line applies there is no verdict |
| LineTexts.BadLinesAreListed | crates/ignore/src/gitignore.rs:392-421 | an error is reported iff the glob of that line fails with it, in order, with lines counted from one |
| LineTexts.BomIsDropped | crates/ignore/src/gitignore.rs:411-414 | a byte order mark in front of the first line changes no verdict |
| LineTexts.LaterBomCounts | crates/ignore/src/gitignore.rs:411-414 | in front of any other line it is a character like others |
| LineTexts.SilentLine | crates/ignore/src/gitignore.rs:454-462 | comments and lines of whitespace say nothing |
| LineMeanings.PlainLineMeans | crates/ignore/src/gitignore.rs:447-528 | what gitignore(5) says of a plain line: `!` negates, a trailing slash asks for a directory, and with a slash elsewhere the whole path is meant, else the last component, which `..` never is |
| LineMeanings.SimpleLineMeans | crates/ignore/src/gitignore.rs:447-528 | the same for any line of literal, escaped and wildcard characters and any options: anchored or holding a slash it applies component by component, else to the last component |
| LineTexts.PlainLineVerdict | crates/ignore/src/gitignore.rs:447-528 | a file of one plain line, with any whitespace behind it, gives the verdict that the line asks for, with the line without that whitespace as its origin |
| LineTexts.EscapedSpaceVerdict | crates/ignore/src/gitignore.rs:457-459 | an escaped space at the end belongs to the name |
| LineTexts.EscapedMarkVerdict | crates/ignore/src/gitignore.rs:471-473 | `\#` and `\!` at the start are those characters and no marks |
| LineTexts.EscapedSlashVerdict | crates/ignore/src/gitignore.rs:490-498 | a slash at the end asks for directories even if a backslash escapes it |
| GlobLines.AnchoredGlobLine | crates/ignore/src/gitignore.rs:447-528 | behind a slash any glob is matched from the root of the file on |
| GlobLines.FloatingGlobLine | crates/ignore/src/gitignore.rs:503-508 | a glob without a slash is matched at any depth |
| GlobLines.WildcardLine | crates/ignore/src/gitignore.rs:515-520 | `*` and `?` in a line stay within a component |
| GlobLines.EmptyAlternativeLine | crates/ignore/src/gitignore.rs:515-520 | `/f{,b}` ignores fb and not f |
| GlobLines.InsideLine | crates/ignore/src/gitignore.rs:509-514 | `/s/**` ignores what is in s and not s |
| GlobLines.StarsLine | crates/ignore/src/gitignore.rs:503-508 | `**` ignores everything |
| GlobLines.CaselessLine | crates/ignore/src/gitignore.rs:515-520 | where case does not matter a line applies to the same letters in any case |
| GlobLines.OpenBracketLine | crates/ignore/src/gitignore.rs:515-520 | a bracket that is not closed stands for itself where the builder allows it, else the line is no rule |
| GlobLines.EscapedLine | crates/ignore/src/gitignore.rs:515-520 | a backslash in a line takes the meaning from the character behind it |
| Overrides.Override.Matched | crates/ignore/src/overrides.rs:97-110 | for every path the verdict of the lines turned round, and without one ignored iff something is included and the path is no directory |
| Overrides.IncludesDecideEveryFile | crates/ignore/src/overrides.rs:97-110 | with one including override every file is decided: included iff the last override that applies includes |
| Overrides.LastOverrideDecides | crates/ignore/src/overrides.rs:97-110 | the last override that applies includes the path, or ignores it if it is written with `!`, and is named in the verdict |
| Overrides.NoOverrideDecides | crates/ignore/src/overrides.rs:97-110 | where none applies a file is ignored iff some override includes something, and a directory is left undecided |
| Overrides.OverrideBuilder.Add | crates/ignore/src/overrides.rs:142-145 | as adding a line of gitignore syntax |
| FileTypes.TypesBuilder.Add | crates/ignore/src/types.rs:417-431 | a bad name changes nothing; else the type has the glob in addition, and every type still has one |
| FileTypes.TypesBuilder.AddDef | crates/ignore/src/types.rs:442-479 | a bad definition changes nothing at all; else all globs asked for are added |
| TypeDefinitions.OneGlobDef | crates/ignore/src/types.rs:445-452 | `name:glob` asks for that glob under that name, if neither is empty |
| TypeDefinitions.IncludeDef | crates/ignore/src/types.rs:453-462 | `name:include:list` asks for the globs of the listed types; any other word in the middle is an error |
| TypeDefinitions.NoColonNoDef | crates/ignore/src/types.rs:477 | a text without a colon is no definition |
| TypeDefinitions.TooManyColons | crates/ignore/src/types.rs:477 | nor is one with three or more |
| TypeDefinitions.ListIsRead | crates/ignore/src/types.rs:462 | a list joined with commas is read back |
| TypeDefinitions.OneGlobAdds | crates/ignore/src/types.rs:417-431 | the glob goes behind those that the type has, no other type changes, and only bad names fail |
| TypeDefinitions.IncludeAdds | crates/ignore/src/types.rs:463-475 | all globs of the other types are added in order; it fails iff the name is bad or one of them is missing |
| TypeDefinitions.IncludingItselfDoubles | crates/ignore/src/types.rs:468-474 | a type that includes itself has its globs twice |
| FileTypes.TypesBuilder.Clear | crates/ignore/src/types.rs:407-410 | the type is gone and the others are unchanged |
| FileTypes.TypesBuilder.SelectType | crates/ignore/src/types.rs:381-391 | `all` appends a selection of every type defined, in some order, anything else of that one |
| FileTypes.TypesBuilder.NegateType | crates/ignore/src/types.rs:395-405 | the same for negation |
| FileTypes.TypesBuilder.Build | crates/ignore/src/types.rs:322-362 | the first unknown selection or bad glob is reported; else globs, pairs and set are aligned and list every pair exactly once, in order |
| FileTypes.ResolvedIsFlat | crates/ignore/src/types.rs:322-362 | position for position, each glob belongs to its pair of selection and glob; the pairs are strictly ascending and none is missing |
| FileTypes.ResolvedSelections | crates/ignore/src/types.rs:329-350 | each selection is kept with the definition of its type |
| TypeDefinitions.FirstUnknownFails | crates/ignore/src/types.rs:330-336 | a selection of an undefined type is the error if all before it are good |
| TypeDefinitions.FirstBadGlobFails | crates/ignore/src/types.rs:337-346 | so is the first glob that does not parse, and it is named |
| FileTypes.ExtendHasGlobs | crates/ignore/src/types.rs:417-431 | every type keeps a glob and no type is lost when one gets more |
| FileTypes.FulfilledHasGlobs | crates/ignore/src/types.rs:442-479 | so it is for every request that a definition makes, copied types included |
| FileTypes.Types.Matched | crates/ignore/src/types.rs:261-301 | directories are undecided; for a file whose name does not end in a dot the last selection with a glob that matches the name whitelists it, or ignores it if it is negated, and without one it is ignored iff something was selected |
| FileTypes.LastSelectionDecides | crates/ignore/src/types.rs:284-299 | the last selection with a matching glob whitelists the file with its definition, or ignores it if it is negated |
| TypeDefinitions.EndingGlobMatches | crates/ignore/src/types.rs:337-346 | a glob `*.rs` in a definition matches exactly the names that end in `.rs` |
| TypeDefinitions.PlainGlobMatches | crates/ignore/src/types.rs:337-346 | plain text matches that name in that case |
| TypeDefinitions.SpecialGlobs | crates/ignore/src/types.rs:337-346 | in globs of types empty alternatives do not count, brackets must be closed and backslashes escape |
| FileTypes.NamelessExactly | crates/ignore/src/pathutil.rs:113-131 | a path has no name iff it is empty or the name would end in a dot |
| FileTypes.LastMatchDecides | crates/ignore/src/types.rs:261-301 | the selection of the last matching pair is the last one with a matching glob: it whitelists if it is a selected type and ignores if it is negated |
| FileTypes.NoMatchDecides | crates/ignore/src/types.rs:261-301 | without a match a file is ignored iff something was selected |
| IgnoreChains.IgnoreInner.AnyGit | crates/ignore/src/dir.rs:443-444 | git rules apply iff no repository is needed or some directory of the whole chain is one |
| IgnoreChains.IgnoreInner.MatchedIgnore | crates/ignore/src/dir.rs:431-556 | the two loops with their flags give the declarative verdict: per source the nearest directory with one, git sources up to the nearest repository, then the first of six sources |
| ChainVerdicts.SpeakerDecides | crates/ignore/src/dir.rs:431-556 | of all levels that say something and are listened to, those of the first kind of file count, of these the nearest, and its own verdict with its glob is the answer |
| ChainVerdicts.NoLevelSpeaks | crates/ignore/src/dir.rs:535-555 | where none does, the global git rules decide if git rules apply, and then the explicit files |
| ChainVerdicts.SlashRuleSparesFiles | crates/ignore/src/dir.rs:446-472 | a chain whose only rule is a line that ends in a slash ignores no file, wherever the rule is |
| ChainVerdicts.AskedLevels | crates/ignore/src/dir.rs:446-533 | the levels below the first absolute parent are asked about the path, the others about the path below the absolute base, if parents are wanted and the base is known |
| ChainVerdicts.GitAppliesExactly | crates/ignore/src/dir.rs:443-444 | git rules apply iff no repository is required or some level of the chain is one |
| IgnoreChains.IgnoreInner.MatchedExplicit | crates/ignore/src/dir.rs:535-540 | the last explicit matcher with a verdict |
| ChainVerdicts.LastExplicitDecides | crates/ignore/src/dir.rs:535-540 | of the explicit files the last one that says something decides, with its own verdict |
| IgnoreChains.IgnoreInner.Matched | crates/ignore/src/dir.rs:383-427 | when an entry is ignored, whitelisted or undecided, from overrides, ignore rules and types, and whose verdict it is |
| ChainVerdicts.DecisionIs | crates/ignore/src/dir.rs:383-427 | an override decides with its glob, then a rule that ignores, then what the types say, then a rule that whitelists |
| ChainVerdicts.DotSlashIsDropped | crates/ignore/src/dir.rs:390-393 | `./a` gets the verdict of `a` |
| IgnoreChains.IgnoreInner.MatchedDirEntry | crates/ignore/src/dir.rs:368-377 | a hidden entry is ignored for that iff hidden entries are unwanted, all three kinds of rule are silent, and its name starts with a dot and does not end in one |
| IgnoreChains.HiddenExactly | crates/ignore/src/pathutil.rs:11-19 | an entry is hidden iff its last component starts with a dot and does not end in one |
| IgnoreChains.IgnoreInner.Reroot | crates/ignore/src/dir.rs:482-502 | the loop and the cuts give the path below the absolute base |
| ChainVerdicts.PathUnderBase | crates/ignore/src/dir.rs:482-502 | a path in the directory where the walk began, be it `.` or named, is asked about below the absolute base |
| ChainRules.NearestDecides | crates/ignore/src/dir.rs:446-472 | the nearest directory with a verdict gives its source's verdict |
| ChainRules.RepositoryDecides | crates/ignore/src/dir.rs:459-471 | for git sources the nearest verdict counts iff no repository lies nearer still |
| ChainRules.RulesAboveRepositoryNeverCount | crates/ignore/src/dir.rs:459-471 | two chains that agree up to a repository, and above it in plain rules only, give the same verdict |
| ChainRules.PlainRulesAlwaysCount | crates/ignore/src/dir.rs:447-458 | custom and `.ignore` rules decide from any distance, repositories or not |
| ChainRules.GitignoreCountsUpToRepository | crates/ignore/src/dir.rs:459-464 | where plain rules are silent a `.gitignore` decides iff git rules apply and no repository shields it; else the exclude files, the global rules and the explicit rules decide, in this order |
| IgnoreParents.Ignore.AddParents | crates/ignore/src/dir.rs:178-239 | whichever cached entries have died, every level of the chain has read the files that the options ask for, and the chain is that of an uncached build but for base paths; the base path is the call's own unless the nearest directory came from the cache; the cache stays valid and holds all directories above |
| IgnoreParents.Ignore.AddParent | crates/ignore/src/dir.rs:213-237 | one directory is taken from the cache or built and entered, and no other entry changes |
| IgnoreParents.ChainReads | crates/ignore/src/dir.rs:249-350 | every level of a built chain but the root matcher has read exactly the files that the options ask for, each by its own option, and is a repository by its own rule |
| FilesRead.NearestFileDecides | crates/ignore/src/dir.rs:278-327 | a file of the directory itself that is asked for and says something decides: a plain one unless an earlier kind speaks, a git one where git rules apply and plain files are silent |
| FilesRead.LevelSpeaksByItsFiles | crates/ignore/src/dir.rs:249-350 | a directory says what its files say that are asked for, and nothing else |
| FilesRead.UnwantedFilesDoNotCount | crates/ignore/src/dir.rs:249-350 | file systems that differ only in files that no option asks for have the same chains, and so the same verdicts |
| FilesRead.UnwantedFilesAreNotBuilt | crates/ignore/src/dir.rs:178-239 | so it is for the chains of directories above a walk |
| FilesRead.GitignoresOff | crates/ignore/src/dir.rs:294-305 | with the option off, and unless it is a custom name, no `.gitignore` changes any chain |
| IgnoreParents.AddedAncestors | crates/ignore/src/dir.rs:213-237 | adding the directories above a path one after another caches all of them, changes no other entry and returns the nearest, with the base path that was found |
| IgnoreParents.Ignore.AddParentsOfSiblings | crates/ignore/src/dir.rs:213-224 | two walks from one directory share its matcher, so with a fresh cache the second has the base path of the first |
| SharedBases.VerdictIsOfBase | crates/ignore/src/dir.rs:431-556 | a verdict depends on the base paths in a chain only through that of its first matcher |
| SharedBases.VerdictsAgreeIf | crates/ignore/src/dir.rs:480-533 | chains that differ in base paths only give the same verdict where the directories above say the same of the two paths they are asked about |
| SharedBases.FoundBaseDecides | crates/ignore/src/dir.rs:213-237 | below any chain that add_parents gives, verdicts are those of an uncached chain with the base path that was found |
| SharedBases.SharingIsHarmlessIf | crates/ignore/src/dir.rs:213-237 | with parent directories and `.ignore` files read, two walks from one directory get the same verdicts from a shared chain as from their own, whatever ignore files there are, iff they began in the same place |
| SharedBases.SecondWalkMissesRule | crates/ignore/src/dir.rs:480-533 | after a walk in `/p/a`, a walk in `/p/b` that shares its chain does not ignore `x` for the line `/b/x` in `/p`; by itself it does |
| SharedWalks.StepKeepsSound | crates/ignore/src/dir.rs:213-237 | every locked step of any worker keeps all entries and all chains those of their directories, with the base path of a call from below |
| SharedWalks.EveryCallGetsItsChain | crates/ignore/src/walk.rs:1481-1490 | however the steps of many workers mix, every call ends with the uncached chain but for base paths, and with the base path of a call from below the same directory |
| SharedWalks.EveryVerdictHasABase | crates/ignore/src/walk.rs:1481-1490 | so every verdict is that of an uncached chain with the base path of such a call |
| SharedWalks.EveryCallAdvances | crates/ignore/src/dir.rs:213-237 | a call can go on until all directories are added, whatever the others do, and comes closer to its end |
| SharedWalks.UninterruptedCall | crates/ignore/src/dir.rs:178-239 | a call alone leaves the cache and the chain that the method leaves |
| IgnoreParents.Ignore.AddChild | crates/ignore/src/dir.rs:249-350 | the chain grows by one non-absolute directory, which has read exactly the files that the options ask for |
| IgnoreParents.ListParents | crates/ignore/src/dir.rs:204-210 | the directories above a path, nearest first |
| PathTexts.AncestorsAre | crates/ignore/src/dir.rs:204-210 | they are the root directory and the beginnings of the path in front of its slashes |
| FilesRead.ParentOfAbsolute | crates/ignore/src/dir.rs:204-210 | the parent of an entry is its directory, and the root directory has none |
| IgnoreParents.AncestorsOfAncestor | crates/ignore/src/dir.rs:204-210 | what lies above a directory above a path is what comes before it in the list |
| IgnoreParents.BuiltAsUncached | crates/ignore/src/dir.rs:213-237 | any absolute chain built, cached or not, is but for base paths the uncached chain of its directories |
| IgnoreParents.NearAndFarSplit | crates/ignore/src/dir.rs:446-505 | every reachable chain is non-absolute matchers followed by absolute ones that end at the root, and the two loops split it there |
| IgnoreParents.RepositoriesOnlyIfRequired | crates/ignore/src/dir.rs:225-267 | no directory is taken for a repository unless one is required and some git rules are read |
| IgnoreParents.RepositoriesTakenAlike | crates/ignore/src/dir.rs:225-267 | adding a directory as a parent or as a child takes it for a repository alike iff it is none or not only exclude files are read |
| IgnoreParents.ExcludeRulesAboveWalkNeverCount | crates/ignore/src/dir.rs:225-267 | where repositories are required and `.gitignore` files are not read, git rules apply iff the walk itself entered a repository, and those from above the walk never count |
| IgnoreParents.ShortcutIsSound | crates/ignore/src/dir.rs:353-365 | without any kind of ignore rule the chain has no verdict, so skipping it changes nothing |
| Decimals.ReadUnsigned | crates/matcher/src/interpolate.rs:128-131 | a written number is read back iff it fits |
| Decimals.ReadSigned | crates/cli/src/blame.rs:209 | the same for signed numbers |
| Interpolate.FindCapRef | crates/matcher/src/interpolate.rs:97-134 | the index loop finds the specified reference |
| Interpolate.Buffer.Interpolate | crates/matcher/src/interpolate.rs:14-56 | exactly the template with its references resolved is appended, and every round shortens the rest |
| Interpolate.PlainText | crates/matcher/src/interpolate.rs:24-30 | text without a dollar sign is copied |
| Templates.TemplateRoundTrip | crates/matcher/src/interpolate.rs:13-134 | a template rendered from literals and references, braced or bare, inserts the literals and the groups meant, in order |
| Templates.BareIsFound | crates/matcher/src/interpolate.rs:108-114 | a bare name is read in full where no letter of a name follows |
| Templates.NumbersReferByIndex | crates/matcher/src/interpolate.rs:128-131 | digits refer by number iff the number fits 32 bits, and by name otherwise |
| Templates.LettersReferByName | crates/matcher/src/interpolate.rs:128-131 | a name with any other letter refers by name |
| References.BracedInserts | crates/matcher/src/interpolate.rs:97-143 | `${name}` inserts the group with that number, leading zeros or not, or else the one with that name, or nothing |
| References.BareInserts | crates/matcher/src/interpolate.rs:97-143 | so does `$name`, which takes all letters, digits and underscores that follow |
| References.TwoDollarsInsertOne | crates/matcher/src/interpolate.rs:31-35 | two dollar signs are one |
| References.LoneDollarIsCopied | crates/matcher/src/interpolate.rs:37-44 | a dollar sign without a name behind it is copied |
| References.OpenBraceIsCopied | crates/matcher/src/interpolate.rs:121-124 | so it is in front of a brace that is empty or not closed right behind the name |
| Blame.Parse | crates/cli/src/blame.rs:162-246 | the index loop ends and gives the specified map, or panics where a hash is cut inside a character |
| Blame.FirstBytesAreBytes | crates/cli/src/blame.rs:235-236 | the short hash is, as bytes, the first eight of the hash |
| Blame.CutsExactly | crates/cli/src/blame.rs:235-236 | the cut succeeds iff there are no more bytes than that or a character ends there |
| Blame.ParsedFailsIf | crates/cli/src/blame.rs:162-246 | parsing panics iff it comes to a header whose hash is cut inside a character |
| Blame.FirstBytesOfAscii | crates/cli/src/blame.rs:235-236 | for ASCII it is the first eight characters, so that no hash of git panics |
| Blame.SkipToCode | crates/cli/src/blame.rs:191-196 | stops at the next line of code or at the end |
| Blame.ReadMetadata | crates/cli/src/blame.rs:197-224 | stops there too, with the author named last and the last readable time |
| BlameListings.ListingRoundTrip | crates/cli/src/blame.rs:162-246 | any well-formed listing gives each final line the short hash, author and shown time of its commit, or Uncommitted and now for the zero hash, and no other lines |
| BlameListings.RepetitionsDoNotCount | crates/cli/src/blame.rs:190-224 | what a listing says of a commit after its first appearance has no influence |
| BlameMeanings.OneEntryIsRead | crates/cli/src/blame.rs:162-246 | an entry alone gives its line the first eight characters of its hash with author and time as described, or Uncommitted and now for forty zeros |
| BlameMeanings.LastAuthor | crates/cli/src/blame.rs:198-199 | the author is the one named last |
| BlameMeanings.NoAuthor | crates/cli/src/blame.rs:194 | or Unknown |
| BlameMeanings.LastTime | crates/cli/src/blame.rs:200-205 | the time is the last readable one, as it is shown |
| BlameMeanings.NoTime | crates/cli/src/blame.rs:195 | or empty |
| BlameMeanings.ReadableTimes | crates/cli/src/blame.rs:202 | a time is readable iff it is from -2^63 to 2^63 - 1 |
| BlameMeanings.HeadersAre | crates/cli/src/blame.rs:170-183 | a header has three words, the third of them a number below 2^64 |
| BlameMeanings.LinesAreCut | crates/cli/src/blame.rs:165 | lines end in a line feed with or without a carriage return, and the last need not end |
| BlameMeanings.WordsAreCut | crates/cli/src/blame.rs:170 | words are what lies between whitespace of any kind |
| BlameListings.LinesOfText | crates/cli/src/blame.rs:165 | splitting a text into lines gives back the lines it was made of, each without a carriage return at its end |
| BlameListings.HeaderIsRead | crates/cli/src/blame.rs:171-186 | hash and final line are read from a header, with a group size or without |
| BlameCaching.BlameCache.GetBlame | crates/cli/src/blame.rs:30-53 | the answer is the entry of that line in the freshly parsed output, nothing if there is none or git fails, or the panic of parsing; the output is cached afterwards, and no other path is touched |
| BlameCaching.BlameCache.FetchFileBlame | crates/cli/src/blame.rs:56-112 | the parsed output is cached, or an empty map if git fails |
| BlameCaching.StepKeepsSound | crates/cli/src/blame.rs:30-112 | every locked step keeps all cached maps fresh and removes no path |
| BlameCaching.RunKeepsSound | crates/cli/src/blame.rs:30-112 | so does every run of any number of calls |
| BlameCaching.EveryAnswerIsFresh | crates/cli/src/blame.rs:30-53 | under every interleaving each call returns, or panics, as looking up the freshly parsed output does |
| BlameCaching.CachedPathsAreNotFetchedAgain | crates/cli/src/blame.rs:37-46 | a cached path stays cached, and no call begun later ever runs git for it |
| BlameCaching.EveryCallAdvances | crates/cli/src/blame.rs:30-53 | a call has exactly one next step until it returns, can always take it, and comes closer to its end |
| BlameCaching.UninterruptedCall | crates/cli/src/blame.rs:30-53 | a call alone leaves the cache and the answer that the single-threaded method leaves |

## Left out

- GlobSet::matches_all_candidate (crates/globset/src/lib.rs:390-397) asks each table for a hit, which is not what its documentation says; two globs for different extensions already differ from it.
- The regular expression and Aho-Corasick engines, hashing and buffer pools are represented by their meanings; size limits of the engine, and with them the errors of `new_regex`, are not modelled.
- Non-Unix path normalisation, lossy conversion of paths to text and borrowed-or-owned buffers are not modelled.
- Reading ignore files, git configuration and worktree files is represented by functions of the directory; the errors they collect are not modelled, except those of the lines of a file.
- LineMeanings.SimpleLineMeans: is about lines without classes, braces or `**`, which have their meaning from the theorems about globs.
- ParsedGlobs.ParserTreesExactly: is about options under which backslashes escape, the default on Unix and the case for all rule files; without them a bracket that an unclosed class leaves behind cannot be written, and only PrintedGlobs.PrintedGlobsParse holds.
- IgnoreParents.Ignore.AddParents: does not equate base paths with those of an uncached build, because an entry of the cache keeps the base path of the walk that built it; which base path results is stated exactly, for many workers in SharedWalks.
- IgnoreParents.ParentPath: is about canonical paths; others are normalised by the path library first.
- Whether a cached matcher is still alive is arbitrary at every look, so no statement depends on when memory is freed.
- The display order of type definitions and the default type tables are not modelled; whether a character is alphanumeric is a parameter.
- Interpolate.Buffer.Interpolate: the callbacks are functions of their argument; callbacks that change state between calls are not modelled.
- The clock behind shown times is not modelled: showing a time is a function of the seconds, the same throughout.
- BlameCaching.BlameCache.GetBlame: takes the text of a path for the path; finding the repository and running git are a function of it.
- The walker, the searcher, printers, flags and configuration are not modelled.
