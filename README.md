# ReplaceObsolete in Dafny

ReplaceObsolete is a Roslyn analyzer and code-fix pair for C#. The analyzer
(rule `ROB001`, category `Maintainability`, severity Info, enabled by default)
visits every identifier name. It reports one diagnostic for each
`System.ObsoleteAttribute` on the symbol that identifier binds to. Each
diagnostic carries the symbol's name and the attribute's message. The code fix
reads a replacement name out of a message of the form `"Use X instead"`. It
offers to rename the flagged identifier token to `X`. The batch fixer applies
that rename to every flagged use the provider registers a fix for, all at once.
A flagged use gets no fix when its message does not start with `"Use "` or
when it is found as an enclosing node, such as a whole argument.

This project models that logic and proves its properties. The host compiler's
part is reduced to plain data:

- a symbol is its name and its attributes;
- an attribute is its class's display name and its constructor arguments'
  string values;
- a document is a sequence of tokens;
- a diagnostic's location is the index of the identifier token it spans;
- the semantic model binds an identifier to a symbol by name.

Modules:

- `Wrappers`: `Option`.
- `DotNetStrings`: `string.IsNullOrWhiteSpace`, an ordinal `StartsWith`, and
  `Split(char)` as .NET defines them. `Split` keeps empty fields. It comes with
  its inverse `Join` and the "first word" characterisation of its first field.
- `Symbols`: attributes, symbols, tokens and syntax nodes, and the positions
  of the obsolete attributes.
- `Analyzer`: the rule descriptor, and `AnalyzeIdentifier` as a loop that
  appends to the reported diagnostics. It is proved equal to a specification
  function, which maps the obsolete attributes one to one onto diagnostics.
- `CodeFix`: the replacement-name parser, the fix offered for a diagnostic,
  and `RegisterCodeFixesAsync` over a context object that collects registered
  actions. It also holds `ReplaceAsync` over a `DocumentEditor` object whose
  token sequence `ReplaceNode` updates.
- `FixAll`: the analyzer run over a whole document, the batch fixer's
  renames, and their order independence. It proves that fix-all rewrites only
  the flagged tokens. It also proves that the fixed document analyses clean
  when every flagged use has a fix whose new name is a single identifier
  that is not itself obsolete. It also
  replays the multiple-usages test for any two names.

Edge cases of the code that the model keeps:

- The message is not trimmed, so `" Use X"` gives no fix
  (`CodeFix.ParseNoReplacement`).
- `"Use "` and `"Use  X"` give the empty name, and a fix is still registered,
  because only a null replacement is refused (`CodeFix.ParseUseMessage` with
  an empty name).
- Once the message starts with `"Use "`, `Split(' ')` has at least two
  fields, so `Split(' ')[1]` is always in range (`CodeFix.ParseReplacement`).
- The analyzer reports every obsolete attribute whatever its message, so a
  diagnostic can stand without a fix (`FixAll.ReportedWhateverTheMessage`).
- A use that is a whole argument, as in `M(OldProp)`, is flagged but never
  fixed: `FindNode` returns the enclosing argument, which is not an
  identifier name (`FixAll.EnclosedUseKept`).

## Model

| member | source | states |
|---|---|---|
| Analyzer.SupportedDiagnostics | ReplaceObsolete/ReplaceObsoleteAnalyzer.cs:12-32 | exactly one rule: id "ROB001", category "Maintainability", severity Info, enabled by default |
| Analyzer.Report | ReplaceObsolete/ReplaceObsoleteAnalyzer.cs:56-63 | the diagnostic for one obsolete attribute: the rule, the identifier's location, and arguments (symbol name, first constructor argument's text or "" when it is absent or null); its use is pinned by `Analyzer.ReportsMatchObsoleteAttributes` |
| Analyzer.ReportsFor | ReplaceObsolete/ReplaceObsoleteAnalyzer.cs:51-65 | the attribute scan yields at most one diagnostic per attribute; each has the rule, the identifier's location and two arguments, the first being the symbol's name |
| Analyzer.AnalyzeIdentifier | ReplaceObsolete/ReplaceObsoleteAnalyzer.cs:42-68 | the loop over the attributes reports exactly the specification's diagnostics, in order; nothing when the symbol does not resolve |
| Analyzer.Diagnostics | ReplaceObsolete/ReplaceObsoleteAnalyzer.cs:44-65 | what one identifier reports: nothing for an unresolved symbol, else the attribute scan; `Analyzer.NoDiagnosticsIff` and `Analyzer.ReportsMatchObsoleteAttributes` state its meaning |
| Analyzer.ReportsMatchObsoleteAttributes | ReplaceObsolete/ReplaceObsoleteAnalyzer.cs:51-63 | one diagnostic per `System.ObsoleteAttribute`, in attribute order, carrying (symbol name, first argument or "") |
| Analyzer.NoDiagnosticsIff | ReplaceObsolete/ReplaceObsoleteAnalyzer.cs:44-53 | an identifier reports nothing iff its symbol does not resolve or has no obsolete attribute |
| Symbols.ObsoleteIndices | ReplaceObsolete/ReplaceObsoleteAnalyzer.cs:51-53 | positions of obsolete attributes only, each in range, no more of them than attributes |
| Symbols.ObsoleteIndicesSorted | ReplaceObsolete/ReplaceObsoleteAnalyzer.cs:51-53 | the obsolete positions are strictly increasing, i.e. in attribute order |
| Symbols.ObsoleteIndicesComplete | ReplaceObsolete/ReplaceObsoleteAnalyzer.cs:51-53 | every obsolete attribute's position is listed |
| Symbols.ObsoleteIndicesShift | ReplaceObsolete.CodeFixes/ReplaceObsoleteCodeFixProvider.cs:38-39 | dropping a leading non-obsolete attribute moves every obsolete position one back, by induction over the attributes |
| Symbols.FirstObsoleteIndex | ReplaceObsolete.CodeFixes/ReplaceObsoleteCodeFixProvider.cs:38-39 | no attribute before the first obsolete index is obsolete |
| CodeFix.FixableDiagnosticIds | ReplaceObsolete.CodeFixes/ReplaceObsoleteCodeFixProvider.cs:19-20 | the provider fixes exactly the id of the analyzer's one rule |
| CodeFix.FindObsoleteAttribute | ReplaceObsolete.CodeFixes/ReplaceObsoleteCodeFixProvider.cs:38-39 | `FirstOrDefault` over the attributes: none iff no attribute is obsolete, else the first obsolete one |
| CodeFix.FindShifts | ReplaceObsolete.CodeFixes/ReplaceObsoleteCodeFixProvider.cs:38-39 | skipping a leading non-obsolete attribute shifts the first obsolete index by one |
| CodeFix.ObsoleteMessage | ReplaceObsolete.CodeFixes/ReplaceObsoleteCodeFixProvider.cs:38-41 | the message read by the fix: the first obsolete attribute's first constructor argument, and none when the symbol does not resolve, has no obsolete attribute, or the argument is absent or null |
| CodeFix.ParseReplacement | ReplaceObsolete.CodeFixes/ReplaceObsoleteCodeFixProvider.cs:41-48 | a replacement exists iff the message is non-null and starts with the exact prefix "Use " (white space then fails by itself); it is the first word after the prefix, so `Split(' ')[1]` is always in range |
| CodeFix.ParseUseMessage | ReplaceObsolete.CodeFixes/ReplaceObsoleteCodeFixProvider.cs:43-48 | "Use N" and "Use N rest" give N for any space-free N; "Use NewProp instead" gives "NewProp", and "Use " and "Use  X" give "" |
| CodeFix.ParseNoReplacement | ReplaceObsolete.CodeFixes/ReplaceObsoleteCodeFixProvider.cs:43-44 | a leading blank, lower-case "use", "Use" without its space, blanks only, or no message give no replacement |
| CodeFix.ProposedFix | ReplaceObsolete.CodeFixes/ReplaceObsoleteCodeFixProvider.cs:32-56 | the registration decision: no fix unless the node is an identifier name and a replacement parses; its meaning is stated by `CodeFix.FixOfferedIff` |
| CodeFix.FixOfferedIff | ReplaceObsolete.CodeFixes/ReplaceObsoleteCodeFixProvider.cs:32-57 | a fix is offered iff the node is an identifier name and the first obsolete attribute's message starts with "Use "; it is titled "Replace with '<name>'", keyed by the provider's name, targets that identifier and renames it to `message.Split(' ')[1]` |
| CodeFix.CodeFixContext.constructor | ReplaceObsolete.CodeFixes/ReplaceObsoleteCodeFixProvider.cs:26-29 | a context over the diagnostics to fix, with nothing registered yet |
| CodeFix.CodeFixContext.RegisterCodeFix | ReplaceObsolete.CodeFixes/ReplaceObsoleteCodeFixProvider.cs:52-57 | appends the action to the registered ones |
| CodeFix.RegisterCodeFixes | ReplaceObsolete.CodeFixes/ReplaceObsoleteCodeFixProvider.cs:26-60 | registers exactly the fix `ProposedFix` describes for the first diagnostic, or nothing |
| CodeFix.WithIdentifierAt | ReplaceObsolete.CodeFixes/ReplaceObsoleteCodeFixProvider.cs:65-66 | the document keeps its length, has the new identifier at the position, and is unchanged everywhere else |
| CodeFix.DocumentEditor.constructor | ReplaceObsolete.CodeFixes/ReplaceObsoleteCodeFixProvider.cs:64 | an editor starts from the document's tokens |
| CodeFix.DocumentEditor.ReplaceNode | ReplaceObsolete.CodeFixes/ReplaceObsoleteCodeFixProvider.cs:66 | replaces the token at one position and nothing else |
| CodeFix.ReplaceAsync | ReplaceObsolete.CodeFixes/ReplaceObsoleteCodeFixProvider.cs:62-68 | the changed document renames the flagged identifier token and keeps every other token, qualifiers and initializers included |
| DotNetStrings.Split | ReplaceObsolete.CodeFixes/ReplaceObsoleteCodeFixProvider.cs:47 | at least one field; two or more iff the separator occurs; no field contains the separator |
| DotNetStrings.JoinSplit | ReplaceObsolete.CodeFixes/ReplaceObsoleteCodeFixProvider.cs:47 | joining the fields of a split gives back the string |
| DotNetStrings.SplitJoin | ReplaceObsolete.CodeFixes/ReplaceObsoleteCodeFixProvider.cs:47 | splitting a join of separator-free fields gives back the fields |
| DotNetStrings.SplitNoSeparator | ReplaceObsolete.CodeFixes/ReplaceObsoleteCodeFixProvider.cs:47 | a string without the separator is a single field |
| DotNetStrings.SplitAt | ReplaceObsolete.CodeFixes/ReplaceObsoleteCodeFixProvider.cs:47 | the first field ends at the first separator and the rest is the split of what follows |
| DotNetStrings.SplitFirstField | ReplaceObsolete.CodeFixes/ReplaceObsoleteCodeFixProvider.cs:47 | the first field of a split on spaces is the string's first word |
| DotNetStrings.FirstWordUnique | ReplaceObsolete.CodeFixes/ReplaceObsoleteCodeFixProvider.cs:47 | a string has exactly one first word |
| DotNetStrings.StartsWith | ReplaceObsolete.CodeFixes/ReplaceObsoleteCodeFixProvider.cs:44 | `message.StartsWith("Use ")` as an ordinal, case-sensitive prefix test without trimming |
| DotNetStrings.IsNullOrWhiteSpace | ReplaceObsolete.CodeFixes/ReplaceObsoleteCodeFixProvider.cs:44 | `string.IsNullOrWhiteSpace`: null, or every character is a .NET white-space character (empty included) |
| FixAll.ApplyAll | ReplaceObsolete.CodeFixes/ReplaceObsoleteCodeFixProvider.cs:23-24 | applying renames keeps the document's length |
| FixAll.ApplyAllPointwise | ReplaceObsolete.CodeFixes/ReplaceObsoleteCodeFixProvider.cs:23-24 | after non-conflicting renames a targeted token carries its edit's name and every other token is unchanged |
| FixAll.ApplyAllOrderIndependent | ReplaceObsolete.CodeFixes/ReplaceObsoleteCodeFixProvider.cs:23-24 | the batch fixer's result is the same for any order of the same non-conflicting renames |
| FixAll.FlattenEmpty | ReplaceObsolete/ReplaceObsoleteAnalyzer.cs:35-40 | the concatenated per-token reports are empty iff every token's are |
| FixAll.DiagnosticsPerToken | ReplaceObsolete/ReplaceObsoleteAnalyzer.cs:35-40 | the action registered for identifier names runs on every token, giving that token's diagnostics (none for other tokens); its ensures only restate its sequence comprehension, and `FixAll.AnalyzeDocumentEmpty` states what the result means |
| FixAll.AnalyzeDocument | ReplaceObsolete/ReplaceObsoleteAnalyzer.cs:35-40 | the host's traversal: every identifier token's diagnostics, laid end to end in source order (an order the model chooses); `FixAll.AnalyzeDocumentEmpty` states when it is empty |
| FixAll.AnalyzeDocumentEmpty | ReplaceObsolete/ReplaceObsoleteAnalyzer.cs:35-40 | a document reports nothing iff no token reports anything |
| FixAll.CleanTokensCleanDocument | ReplaceObsolete/ReplaceObsoleteAnalyzer.cs:35-40 | a document whose tokens each report nothing reports nothing |
| FixAll.EditsFor | ReplaceObsolete.CodeFixes/ReplaceObsoleteCodeFixProvider.cs:23-24 | exactly one rename per token with a fix, to that fix's name, in increasing position |
| FixAll.EditsForPointwise | ReplaceObsolete.CodeFixes/ReplaceObsoleteCodeFixProvider.cs:23-24 | those renames apply, never conflict, and change exactly the tokens that have a fix |
| FixAll.FixOnlyWhereFlagged | ReplaceObsolete.CodeFixes/ReplaceObsoleteCodeFixProvider.cs:32-57 | a fix exists only for a flagged identifier token |
| FixAll.FindNode | ReplaceObsolete.CodeFixes/ReplaceObsoleteCodeFixProvider.cs:30 | `root.FindNode(span)` for an identifier's span: the identifier name, or an enclosing node with the same span at the positions given |
| FixAll.FixesPerToken | ReplaceObsolete.CodeFixes/ReplaceObsoleteCodeFixProvider.cs:26-60 | `RegisterCodeFixesAsync` run for every token's diagnostics, as `FixAll.FixAt` gives them; its ensures only restate its sequence comprehension, and `FixAll.EditsFor`, `FixAll.FixAllRewritesOnlyFlagged` and `FixAll.AnalyzeDocumentEmpty` state what it means |
| FixAll.FixAllEdits | ReplaceObsolete.CodeFixes/ReplaceObsoleteCodeFixProvider.cs:23-24 | the batch fixer's edit set: every edit renames a token that has a fix to that fix's new name, and every token with a fix gets its edit |
| FixAll.FixAt | ReplaceObsolete.CodeFixes/ReplaceObsoleteCodeFixProvider.cs:26-60 | the fix the provider registers for a token's first diagnostic, on the node `FindNode` returns; none for an unflagged token |
| FixAll.FixAllEditsApply | ReplaceObsolete.CodeFixes/ReplaceObsoleteCodeFixProvider.cs:23-24 | fix-all's renames all target identifier tokens and never conflict |
| FixAll.FixAllRewritesOnlyFlagged | ReplaceObsolete.CodeFixes/ReplaceObsoleteCodeFixProvider.cs:23-24 | fix-all renames each token that has a fix to its replacement and leaves every other token as it was |
| FixAll.CleanAfterFix | ReplaceObsolete.CodeFixes/ReplaceObsoleteCodeFixProvider.cs:23-24 | a token that is unflagged, or whose fix renames it to one identifier that binds to no obsolete symbol, reports nothing after fix-all |
| FixAll.FixAllClearsDiagnostics | ReplaceObsolete.CodeFixes/ReplaceObsoleteCodeFixProvider.cs:23-24 | when every flagged identifier has a fix (it is found as an identifier name and its message starts with "Use ") whose new name is one identifier that is not obsolete, the fixed document analyses clean |
| FixAll.FixedTokensClean | ReplaceObsolete.CodeFixes/ReplaceObsoleteCodeFixProvider.cs:23-24 | under the same condition, no token of the fixed document is flagged |
| FixAll.EnclosedUseKept | ReplaceObsolete.CodeFixes/ReplaceObsoleteCodeFixProvider.cs:30-32 | an identifier found as an enclosing node (a whole argument) gets no fix; fix-all keeps it and it reports the same diagnostics afterwards |
| FixAll.UnfixedTokenKept | ReplaceObsolete.CodeFixes/ReplaceObsoleteCodeFixProvider.cs:23-24 | a token without a fix is unchanged by fix-all |
| FixAll.SingleObsoleteAttributeReported | ReplaceObsolete.Test/ReplaceObsoleteAnalyzerTests.cs:54-56 | a symbol with one obsolete attribute gets exactly one diagnostic, with (name, message or "") |
| FixAll.ReportedWhateverTheMessage | ReplaceObsolete/ReplaceObsoleteAnalyzer.cs:53-65 | an obsolete attribute is reported whatever its message, and a fix exists iff the node is an identifier and the message starts with "Use " |
| FixAll.ScenarioFlagged | ReplaceObsolete.Test/ReplaceObsoleteAnalyzerTests.cs:140-143 | in the multiple-usages test both uses of the old name are flagged with (old name, message) and offered the new name |
| FixAll.ScenarioUnflagged | ReplaceObsolete.Test/ReplaceObsoleteAnalyzerTests.cs:252-271 | no other token is flagged or fixed, the use of the new name included |
| FixAll.ScenarioDiagnostics | ReplaceObsolete.Test/ReplaceObsoleteAnalyzerTests.cs:120-143 | the analyzer reports exactly the two uses of the old name, in source order |
| FixAll.ScenarioFixAll | ReplaceObsolete.Test/ReplaceObsoleteAnalyzerTests.cs:120-164 | for any new name that is one identifier, fix-all renames exactly those two uses, keeps `this.` and the existing use of the new name, and the result analyses clean |
| FixAll.ScenarioFixable | ReplaceObsolete.Test/ReplaceObsoleteAnalyzerTests.cs:120-143 | every flagged use in the test has a fix to the new name, which is one identifier and not obsolete |
| FixAll.ScenarioRenamed | ReplaceObsolete.Test/ReplaceObsoleteAnalyzerTests.cs:146-163 | fix-all turns the test's code into the expected code: the two uses renamed, the other five tokens kept |

## Left out

- Roslyn itself is not modelled: symbol binding (`GetSymbolInfo`), syntax roots, trivia and formatting. Symbols, attributes and tokens are plain data.
- `CodeFix.ReplaceAsync`: the new token comes from `SyntaxFactory.Identifier(newName)`, so the real fix drops the leading and trailing trivia of the replaced identifier (`x.OldProp /* c */;` loses its comment). Tokens here carry no trivia, so the model keeps neighbouring text as it was.
- `FixAll.FindNode`: which identifiers `FindNode` finds as an enclosing node (a whole argument, say) depends on the syntax tree, which is not modelled. It is given as a set of positions, and `CodeFix` takes the found node as a parameter.
- Only identifier-name nodes (uses) are `Identifier` tokens. The identifier a declaration introduces is an `Other` token, because the analyzer's action is registered for identifier names only.
- Source spans (line and column) are not modelled. A location is the index of the one identifier token the node spans.
- The semantic model binds an identifier by its name alone. Overloads, scopes and qualified lookup belong to the host.
- `async`/`Task`, `CancellationToken` and `EnableConcurrentExecution` are host scheduling and are not modelled. The analysis of one identifier is sequential.
- `ConfigureGeneratedCodeAnalysis(None)` turns off analysis of generated code. The model has no notion of generated code, so every document is analysed.
- The localizable title, message format and description come from resource strings, and the MEF export attribute is plumbing. Neither is modelled.
- The unused `Title` constant of the code-fix provider is not modelled.
- `StartsWith` without a comparison argument is culture-sensitive in .NET. It is modelled as an ordinal prefix test.
- `RegisterCodeFixes` requires a non-empty diagnostic list, because `Diagnostics.First()` throws on an empty one and the host never passes one.
- `FixAll.EditsFor`: Roslyn's batch fixer merges the text changes of fixes computed on the original document. The model applies one rename per token that has a fix, in sequence. Several diagnostics on one token give one rename, since they all carry the same replacement.
- `FixAll.FixAllClearsDiagnostics`: the fixed document is not re-tokenised, so the theorem requires every replacement to be one identifier (`FixAll.IsSimpleIdentifier`: ASCII letters, digits and `_`, not starting with a digit). A replacement such as `Helpers.NewMethod`, `NewProp,` or the empty name is inserted as text that parses into several tokens or none, and the theorem says nothing about it. Unicode letters and `@`-prefixed names are outside this approximation of C# identifiers.
- `FixAll.AnalyzeDocument`: the order of the reported diagnostics is the model's choice. With concurrent execution enabled the host promises no order, and the test verifier sorts the diagnostics before comparing.
- `CodeFix.CodeFixContext` holds no document. The provider reads the document only through the node `FindNode` returns, which `CodeFix.RegisterCodeFixes` takes as a parameter.
- The test harness (`CSharpCodeFixVerifier`) is not modelled. The multiple-usages test is replayed as lemmas over any two names.
