# restrict-imports-loader, modelled in Dafny

restrict-imports-loader is a webpack loader. It parses each TypeScript
module it is given and looks at every import and export declaration. It
reads the module path out of each string literal found directly under such
a declaration. It then asks each configured *decider* whether that path is
restricted. A decider is a regular expression or a function on the path.
The rules are visited in order. Each rule that caught restricted imports is
reported to webpack as an error or a warning, according to its severity. A
rule with fatal severity fails the module instead, and the rules after it
are not reported.

This project models that core in Dafny:

- `core.dfy` (module `Core`) models the scanner of `src/core.ts`. The
  syntax tree is a `Node` datatype: kind, children in visiting order,
  leading trivia and own text. `Candidates` and `Filter` say which paths
  the tree holds and which of them a decider restricts. Each path is read
  as the scanner reads it: the literal's full text, leading trivia
  included, trimmed and then stripped of its first and last characters.
  The methods `CheckNode`, `CheckDeclaration`, `BadImportsIn` and `Check`
  are the scanner's traversal, written as loops that extend a growing
  accumulator. Each is proved equal to that specification.
- `deciders.dfy` (module `Deciders`) and `index.dfy` (module `Index`)
  model `everythingInPackage` / `everythingIn`. The pattern
  `^name(\/.*)?$` is modelled as a small regular-expression matcher, and
  it is proved to accept exactly the package and the paths below it.
  `Index` also has the `check` wrapper and the submodule fixtures.
- `loader.dfy` (module `Loader`) models the loader's report text
  (`errorMessageForAll`, `errorMessage`), its defaults, and the loop that
  hands each rule's report to webpack. `Dispatch` returns the emitted
  errors, the emitted warnings and the completion.
- `text.dfy` (module `Text`) models `quote` and `indentBy`.
  `utilities.dfy` (module `Utilities`) models `defaultTo`.
- `js.dfy` (module `Js`) models the JavaScript built-ins the code relies
  on: `substring`, `split`, `join`, `repeat`, `trim`, `trimEnd`,
  decimal formatting of a number, and `RegExp.prototype.test` for the
  flagless pattern the package builds.

## Model

| member | source | states |
|---|---|---|
| Core.Unquote | src/core.ts:58-61 | The first and last characters are dropped from a string of length two or more. A one-character string comes back unchanged, because `substring` swaps its arguments. The empty string gives the empty string. |
| Core.UnquoteQuote | src/text.ts:1-3 | `unquote` undoes `quote` for every string. |
| Core.LiteralPathAgrees | src/core.ts:38 | If a literal's leading trivia is whitespace only, then reading the trimmed full text gives the same path as the literal's own text without quotes. |
| Core.LiteralPathAsWritten | src/core.ts:38 | The path the scanner reads from a literal: its full text, leading trivia included, trimmed, then without its first and last characters. Its properties are stated by the two lemmas below. |
| Core.CommentBeforeLiteral | src/core.ts:38 | Suppose the trivia, after any leading whitespace, starts with something other than whitespace, such as a block comment. Then the path read is the rest of that trivia, an opening quote and the imported path, so it never equals the imported path (see Findings). |
| Core.CommentedDeclarationReported | src/core.ts:36-40 | A declaration whose literal follows such trivia yields one candidate, and its path is the trivia-laden string, not the imported path. |
| Core.IsRestricted | src/core.ts:46-52 | A regular-expression decider answers with its `test` on the path. A function decider answers with its own result. |
| Core.IsImportOrExportDeclaration | src/core.ts:54-56 | A node counts as a declaration exactly when it is an import or an export declaration. |
| Core.FilterExactly | src/core.ts:39-41 | A hit is pushed only if its path is restricted. Every kept entry comes from the input. Each restricted entry is kept exactly as often as it occurs. Unrestricted entries never appear. |
| Core.FilterKeepsSuffix | src/core.ts:39-41 | If the entries before `n` are unrestricted and the rest are restricted, exactly the entries from `n` on are reported, in order. |
| Core.CandidatesComeFromDeclarations | src/core.ts:27-43 | Every candidate comes from a string literal directly under an import or export declaration. It is paired with that declaration, and its path is the one read from that literal's trimmed full text. That declaration lies in the scanned tree and is reached without passing through another declaration (`Within`). |
| Core.LiteralChildIsCandidate | src/core.ts:35-41 | No literal is dropped: every string literal directly under an import or export declaration is a candidate, with its path read from the trimmed full text and paired with that declaration. Together with CandidatesComeFromDeclarations this holds in both directions. |
| Core.VisitsAllChildren | src/core.ts:27-33 | A node that is not a declaration has all candidates of each of its children among its own. |
| Core.DeclarationReadsOnlyItsChildren | src/core.ts:35-43 | Two declarations whose children agree in kind and in full text, trivia included, yield the same paths, whatever lies below those children. |
| Core.CheckDeclaration | src/core.ts:35-44 | The accumulator is extended by exactly the declaration's literal children whose path, read from the trimmed full text, is restricted. They come in child order. |
| Core.CheckNode | src/core.ts:27-33 | The accumulator is extended by exactly the restricted candidates of the subtree, in visiting order. |
| Core.BadImportsIn | src/core.ts:21-25 | The result is exactly the restricted candidates of the tree, starting from an empty accumulator. |
| Core.Check | src/core.ts:12-19 | There is one list per decider, in decider order. List `k` holds the candidates of the parsed file that decider `k` restricts. |
| Core.ImportKindsFound | src/core.ts:54-56 | In the `different-import-kinds.ts` fixture, the three clause imports, the bare import and the re-export are reported in source order, each with its own statement. The import-equals statement is not reported. |
| Deciders.EverythingInPackage | src/deciders.ts:2-4 | The pattern accepts a path if and only if the path is the package itself, or the package followed by `/` and a rest without line terminators. |
| Deciders.PackageReMatches | src/deciders.ts:3 | The regular expression `^name(\/.*)?$` matches exactly the paths in the package. This holds in both directions. |
| Deciders.SubpathIsRestricted | src/deciders.ts:3 | Any path below the package is restricted. |
| Deciders.OtherPrefixIsNotRestricted | src/deciders.ts:3 | A path that does not start with the package name is not restricted. |
| Deciders.LongerNameIsNotRestricted | src/deciders.ts:3 | A path that extends the name with anything other than `/` (such as `typescript2`) is not restricted. |
| Deciders.TypescriptRestricted | src/deciders.ts:3 | `typescript` restricts itself and `typescript/lib/index.ts`. |
| Deciders.TypescriptPrefixesNotRestricted | src/deciders.ts:3 | `typescript` restricts neither `typescript2` nor `my-typescript`. |
| Deciders.NestedNameRestricted | src/deciders.ts:1-4 | A nested name such as `typescript/lib` restricts the paths below it. |
| Deciders.NestedNameParentNotRestricted | src/deciders.ts:1-4 | `typescript/lib` restricts neither its parent `typescript` nor its sibling `typescript/index`. |
| Index.FileNameOrEmpty | src/index.ts:22 | An absent or empty file name becomes `""`. Any other name is kept. |
| Index.Check | src/index.ts:14-24 | Same result as the core `check`: one list per restricted decider, in order, computed on the file parsed under the defaulted name. |
| Index.EverythingIn | src/index.ts:26-28 | Builds the same pattern as `everythingInPackage`, so it accepts exactly the package and the paths below it. |
| Index.SubmodulesOfTypescript | __tests__/core.test.ts:29-38 | `everythingIn("typescript")` reports all six imports of `submodules.ts`, in order. |
| Index.SubmodulesOfTypescriptLib | __tests__/core.test.ts:40-46 | `everythingIn("typescript/lib")` reports only the last three imports of `submodules.ts`, in order. |
| Text.Quote | src/text.ts:1-3 | The result is two characters longer, starts and ends with `"`, and holds `s` in between. |
| Text.IndentBy | src/text.ts:5-8 | Splits at line breaks, puts `n` spaces in front of every non-empty line, and joins again. Its properties are stated by the four lemmas below. |
| Text.IndentByLines | src/text.ts:5-8 | The line count is kept. Empty lines stay empty. Every other line gets exactly `n` spaces in front, and dropping them gives the line back. |
| Text.IndentByZero | src/text.ts:5-8 | Indenting by 0 is the identity. |
| Text.IndentByCompose | src/text.ts:5-8 | Indenting by `b` and then by `a` is the same as indenting by `a + b`. |
| Text.IndentByCount | src/text.ts:5-8 | Indenting adds only spaces. Any other character that is not a line break occurs as often as before. |
| Utilities.DefaultTo | src/utilities.ts:1-3 | A value that is not `undefined` is returned unchanged. `undefined` gives the default. The result is `undefined` only if both are. |
| Utilities.DefaultToIdempotent | src/utilities.ts:1-3 | Applying the same default twice is the same as applying it once. |
| Loader.DefaultInfo | src/loader.ts:11 | The default info is `Found restricted imports:`. |
| Loader.DefaultDetailedErrorMessages | src/loader.ts:12 | Detailed error messages are on by default. |
| Loader.ErrorMessageForAll | src/loader.ts:137-145 | The report for one rule. Its shape is stated by MessageShape, ReportIsLines, BulletCount and BriefReport. |
| Loader.ErrorMessage | src/loader.ts:147-160 | One bullet, with or without details. Its lines are stated by BulletIsItsLines. |
| Loader.MessageShape | src/loader.ts:137-145 | The report is the info, a blank line, the indented bullets without trailing whitespace, and a final blank line. So it begins with `info + "\n\n"` and ends with `"\n\n"`. |
| Loader.BulletIsItsLines | src/loader.ts:147-160 | A bullet is its lines, each followed by a line break. Without details that is the head alone. With details: head plus colon, blank line, statement indented by 6, blank line, info indented by 2 plus a blank line when there is info, and a final blank line. |
| Loader.ReportIsLines | src/loader.ts:137-160 | The report is the info, a blank line, all bullets' lines indented by 2 with trailing whitespace removed, and a blank line. |
| Loader.BulletCount | src/loader.ts:141-159 | The report holds one `•` per restricted import, provided no `•` occurs in the paths, statements or infos. |
| Loader.BriefReport | src/loader.ts:137-159 | Without details, each bullet is one line `  • "<path>", imported on line <n>`. The lines are joined by line breaks between the info block and the final blank line. |
| Loader.EffectiveSeverity | src/loader.ts:105 | A rule's own severity, else the loader-wide severity. |
| Loader.EffectiveInfo | src/loader.ts:106 | A rule's own info, else `Found restricted imports:`. |
| Loader.Detailed | src/loader.ts:95 | `detailedErrorMessages` as given, else `true`. |
| Loader.FirstFatal | src/loader.ts:102-111 | The first rule that has restricted imports and fatal severity, or the number of rules if there is none. No rule before it fires as fatal. |
| Loader.Dispatch | src/loader.ts:102-126 | Errors and warnings are the reports of the firing rules before the first fatal one, each under its own severity, in rule order. The completion carries the fatal rule's report, if there is one, else no error. The source is always passed on unchanged. |
| Loader.EmittedPartition | src/loader.ts:104-120 | Every rule with restricted imports is reported exactly once, under exactly one severity. |
| Loader.DiagnosticsCount | src/loader.ts:102-121 | Before the first fatal rule, the number of errors plus warnings equals the number of rules with restricted imports. |
| Loader.NothingRestricted | src/loader.ts:102-123 | If no rule has restricted imports, no rule stops the visit as fatal, so the completion carries no error, and nothing is emitted under any severity. |
| Loader.SingleRule | src/loader.ts:108-117 | A single firing rule is, according to its severity, the completion error, one emitted error, or one emitted warning. |
| Loader.FatalIgnoresLaterRules | src/loader.ts:110-111 | After a fatal rule, nothing that later rules found changes what is emitted or the completion error. |
| Loader.EmittedPrefix | src/loader.ts:102-121 | What is emitted for the first `n` rules depends only on those rules' restricted imports. |
| Loader.TwoDetailedBullets | src/loader.ts:137-160 | The detailed report for two one-line statements without info, written out line by line. |
| Loader.DetailedExample | __tests__/loader.test.ts:7-19 | The detailed report for two `typescript` imports equals the expected text in the test. |
| Loader.BriefExample | __tests__/loader.test.ts:21-27 | The brief report for two `typescript` imports equals the expected text in the test. |

## Left out

- The webpack plumbing is not modelled: reading options, schema validation, the async callback, `checkAsync`, async deciders and `deciderFunction`. `Dispatch` starts from the matrix of restricted imports per rule.
- The TypeScript parser is not modelled. `Core.Check` takes it as the parameter `parse`, and the tree is a `Node` value.
- Line numbers, `setParentNodes` and the restricted-import details the loader receives (`RestrictedImport`) are given inputs. The code that computes them is not part of this model.
- The deciders that `src/deciders.ts` does not show (`matchedBy` and the others the loader uses) are not part of this model.
- Deciders.EverythingInPackage: a package name is taken literally. Regular-expression metacharacters inside the name (the source interpolates it unescaped) are not modelled.
- Core.IsRestricted: a regular-expression decider's `test` is a pure function of the path. A decider with the `g` or `y` flag keeps state in `lastIndex`, so it can answer the same path differently on successive calls. That state is not modelled.
- Strings are sequences of characters. UTF-16 code units and surrogate pairs are not modelled.
- The `never` branch of the severity switch is not modelled, because `Severity` is a closed datatype with three values.
- Loader.Dispatch: requires one matrix row per rule, which the source's scanner always provides.
- Core.ImportKindsFound: the shown scanner does not report `import x = require("…")`, because an import-equals declaration is neither an import nor an export declaration. `__tests__/core.test.ts:24` expects it, so that test does not match the scanner shown. The model follows the code.
- The `prefixes.ts` fixture (`__tests__/core.test.ts:48-54`) and the loader tests that need webpack are covered only through the general lemmas. Their fixture files are not part of this model.
- Loader.BulletCount: assumes that no `•` occurs in the info, paths, statements or import infos. Otherwise they add to the count.
- Loader.ReportIsLines: assumes no line break inside an import path. The scanner can report one: a line comment before the literal stays in the path read from its full text, and a backslash line continuation inside the literal is kept, because `unquote` does not unescape.
- Loader.BriefReport: assumes no line break inside an import path, for the same two reasons.

## Findings

| source | as written | input that shows it | evidently intended | confidence | as-written member | corrected member |
|---|---|---|---|---|---|---|
| src/core.ts:38 | The path is `unquote(node.getFullText().trim())`. The full text includes the literal's leading trivia, and `trim` removes only whitespace, so a comment in front of the literal stays in. | `import x from /* c */ "typescript";` is reported under the path `* c */ "typescript` instead of `typescript`. | The literal's own text without its quotes. | medium, not executed | Core.CommentedDeclarationReported (Core.CommentBeforeLiteral) | Core.LiteralPathAgrees (Core.LiteralPath) |

The scanner follows `src/core.ts:38` as written. The corrected reading,
`Core.LiteralPath`, gives the same path whenever a literal's leading trivia
is whitespace only (`Core.LiteralPathAgrees`). That holds for every fixture
literal (`Core.LiteralNodeReadsPath`).
