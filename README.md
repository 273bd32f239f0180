# Scripd core, modelled in Dafny

Scripd is a PHP SQL generator. A schema is a JSON document. Its keys name
database objects (`:database`, `:table`, `:view`, ...). A key can also be a
`<kind>-group` holding a list of such objects. `JsonDbStructure::parseStructure`
walks the document. For every declaration of a recognised kind it renders one
statement from a `.jsyn` template file:

- the file is named `<crud-action>-<kind>.jsyn`;
- the template holds a token list per SQL vendor, with `default` as the
  fallback;
- `JsynExtractor` loads the list and normalises its case.

The renderer walks the tokens one by one:

- `{name}` is a value placeholder;
- `[name]` is a flag, printed when the attribute is truthy;
- `[{name}]` is an optional value;
- `[(name)]` (in definer templates only) becomes `, NAME`;
- every other token is a literal.

A placeholder whose attribute is absent is removed, together with an `=`
just before it. The attributes `columns`, `add-column` and `foreign-key`
hold lists. Each element is rendered through the template of the same name,
and the results are written as `(a, b, ...)`. That text is also written back
into the declaration in place of the list, so a later token naming the same
attribute sees the text: a second `{columns}` iterates a string and renders
`()`, and a `[columns]` flag is truthy. With a `:database`, a
`USE <name>` is emitted before the objects nested in it. `getGeneratedSql`
joins the statements.

The project has these modules:

- `Wrappers`: `Option`, `Result` and `Collect`.
- `PhpStrings`: the PHP string built-ins the code relies on:
  `strtolower`/`strtoupper`, `substr`, `strpos`, single-character
  `str_replace`, and `implode`.
- `Json`: the decoded document. `Value` is a string, an integer, a boolean,
  a list or an object whose fields are kept in order. `Lookup` is
  `isset($v[$k]) ? $v[$k] : null`.
- `Jsyn`:
  - the extractor, as class `JsynExtractor`;
  - vendor selection;
  - `formatJsyn`, as an in-place loop proved equal to `FormatTokens`.
- `Substitution`: the token engine.
  - A template becomes a sequence of slots: kept text, `null`, or unset.
  - One iteration of either render loop is a `Write`. `ApplyAll` runs those
    writes in order, as the PHP loop rewrites `$jsyn` in place.
  - `Settled` is the closed form of that loop: slot `j` depends only on
    writes `j` and `j + 1`.
  - `Classify` is the marker logic of the loops. `DefinerWrite` and
    `DefinerPass` are `generateSqlFromObjectDefiner`'s loop.
- `Generator`:
  - the two whitelists;
  - template names, template loading and the kind search
    (`getProvidedTopLevelObject`, `isValidTopLevelObject`,
    `isAnotherObjectPresent`);
  - `generateSqlFromStructure`'s render pass as functions. `StructureStep`
    is one round of its loop, giving the slot write and the declaration
    after the round. `StructureRun` threads the declaration through the
    rounds, and `DeclAt` is the declaration a given round sees.
- `Walker`: `parseStructure`'s document walk as functions (`WalkEntry`,
  `WalkObject`, `WalkGroup`, `WalkFields`, `Walk`), with the group-key cut
  and the `USE` rule corrected (see "## Findings").
- `Scripd`: class `JsonDbStructure`. Its fields are the document, the
  vendor, the templates and `generatedSql`. The two render loops and the
  definer-list loop follow the source loop for loop, with the declaration
  held in a local variable that the definer write-back updates. The walk
  methods follow the corrected walk instead (see "## Left out"). Each method
  is proved equal to the function that specifies it. Each walk method
  appends exactly that function's statements to `generatedSql`.
- `Findings`: the two places where `parseStructure` as written differs from
  its evident intent. Each is modelled as written, with a concrete input
  that shows the difference.

Where the system's description and its code differ, the model follows the code:

- A declaration without `:crud-action` is described as a `StructureError`.
  - The code reads the missing action as `null`, so it looks for the
    template `-<kind>.jsyn`.
  - The model returns `TemplateNotFound("-<kind>.jsyn")` unless such a
    template exists, as `Generator.CrudAction` and `Generator.StructureSql` show.
- A false attribute is described as dropping its token together with an
  `=` before it.
  - The code sets the slot to `null` (lines 281 and 346-349). Only an
    absent attribute unsets the slot and the `=` before it (lines 283-289
    and 351-357).
  - `implode` prints `null` as an empty string, so `DEFAULT = [x]` with `x`
    false renders `DEFAULT = ` with its `=` and an empty last part.
  - `Generator.FalseFlagKeepsAssign` states this.
- `getGeneratedSql`'s default delimiter is described as `"; \n"`. The code
  uses `";\n"`, and so does `Scripd.JsonDbStructure.GetGeneratedSql`.
- `JsynExtractor.php` contains an unresolved merge conflict (lines 60-64)
  and an `else` without an `if` (lines 90-93), so the file does not parse.
  - The model takes the behaviour both branches agree on: the requested
    vendor's list if present, else the `default` list.
  - The constructor, `setJsynFile` and `setSqlSyntax` together make this
    selection. It is `Jsyn.SelectVendor`.

## Model

| member | source | states |
|---|---|---|
| Generator.KindsStartWithColon | src/JsonDbStructure.php:31-42 | every whitelisted kind is longer than one character and starts with `:` |
| Generator.ObjectIdentifierToString | src/JsonDbStructure.php:226-229 | the identifier without its first character; "" for "" |
| Generator.GuessJsynFileName | src/JsonDbStructure.php:152-161 | a file name exists exactly for whitelisted kinds, and it is `lower(action) + "-" + kind[1..] + ".jsyn"` |
| Generator.FileNameInjective | src/JsonDbStructure.php:152-161 | two whitelisted kinds with hyphen-free actions that give the same file name are the same kind and the same lower-cased action |
| Generator.FirstKindFrom | src/JsonDbStructure.php:189-193 | the position found lies in range, and the value holds the kind at that position |
| Generator.FirstKindFromIsFirst | src/JsonDbStructure.php:189-195 | the position found is the first one from `from` on that the value holds; "none" means the value holds none of them |
| Generator.GetProvidedTopLevelObject | src/JsonDbStructure.php:187-196 | the result is a whitelisted kind the value holds, and no earlier kind in whitelist order is held; "none" holds exactly when the value holds no whitelisted kind. `isAnotherObjectPresent` (lines 440-447) is the same search, with its implicit `null` as "none" |
| Generator.IsValidTopLevelObject | src/JsonDbStructure.php:206-215 | true exactly when some whitelisted kind is held by the value |
| Generator.SingleValid | src/JsonDbStructure.php:395-396 | `[$object => $v]` is valid exactly when `$object` is whitelisted, and then the kind found is `$object` |
| Generator.LoadTemplate | src/JsonDbStructure.php:246-248 | a missing file gives TemplateNotFound; a file with neither the vendor nor `default` gives VendorMissing; on success the result is the selected list after `formatJsyn` |
| Generator.CrudAction | src/JsonDbStructure.php:242 | a non-array declaration is a StructureError; a missing `:crud-action` reads as "" (null); any string action is its text, and any other scalar its PHP string; an array action is a StructureError |
| Generator.DefinerSqls | src/JsonDbStructure.php:273-276 | succeeds exactly when every element renders; then it has one rendering per element, in list order |
| Json.SetEntry | src/JsonDbStructure.php:277 | after `$v[$key] = $x` on a key `$v` holds, the key gives `$x` and every other key gives what it gave before |
| Generator.StructureRun | src/JsonDbStructure.php:251-291 | a successful run has one write per token |
| Generator.StructureRunSnoc | src/JsonDbStructure.php:251-291 | one more token is one more round, made against the declaration the shorter run left |
| Generator.StructureRunPrefix | src/JsonDbStructure.php:251-291 | every prefix of a successful run succeeds, and its writes are a prefix of the run's |
| Generator.StructureRunFailurePersists | src/JsonDbStructure.php:251-291 | a failing round makes the whole run, and so the pass, fail with its error |
| Generator.StructureRunAt | src/JsonDbStructure.php:251-291 | in a successful run, round `i` succeeds against the declaration the earlier rounds left; its write is the run's write `i`, and its declaration is the one round `i + 1` sees |
| Generator.StepKeepsOtherKeys | src/JsonDbStructure.php:270-290 | a round changes the declaration under no key except the one its value placeholder names |
| Generator.DeclAtOriginal | src/JsonDbStructure.php:277 | under a non-definer key, or a key no earlier value placeholder names, the declaration a round sees is the original one |
| Generator.OriginalFrom | src/JsonDbStructure.php:277 | the original value under a key, seen at round `n`, is still seen at round `m` when no round between expands that key |
| Generator.DeclAtKeeps | src/JsonDbStructure.php:270-290 | a round whose token does not expand a definer key leaves the value under that key as it was |
| Generator.StructurePassAt | src/JsonDbStructure.php:251-291 | after a successful pass, round `i` succeeds against the declaration it sees, and slot `i` is the settled form of its write |
| Generator.StructureSqlOfSingle | src/JsonDbStructure.php:239-294 | `[$kind => $decl]` renders through `<action>-<kind>.jsyn` filled from `$decl`; crud-action, load and pass errors propagate |
| Generator.StructureDefinerExpanded | src/JsonDbStructure.php:272-279 | a definer placeholder whose value in the current declaration is present and not boolean becomes `(` + the renderings of that value's elements in list order, joined by `, ` + `)` |
| Generator.StructureStepDefiner | src/JsonDbStructure.php:272-279 | a successful round of a definer placeholder writes the parenthesised renderings of its elements to the slot and, in place of the list, to the declaration |
| Generator.DefinerFirstExpansion | src/JsonDbStructure.php:272-279 | the first value placeholder naming a definer expands the list of the original declaration |
| Generator.ExpansionWritesText | src/JsonDbStructure.php:277 | a round that expands definer `k` leaves parenthesised text under `k` |
| Generator.TextStaysText | src/JsonDbStructure.php:272-279 | parenthesised text under a definer key stays parenthesised text through any later round |
| Generator.ExpandedStaysText | src/JsonDbStructure.php:277 | once a definer is expanded, every later round sees parenthesised text under its key |
| Generator.ExpansionAt | src/JsonDbStructure.php:277 | the round that expands a definer leaves parenthesised text under its key for the next round |
| Generator.TextStaysAt | src/JsonDbStructure.php:272-279 | parenthesised text under a definer key seen by one round is still there for the next |
| Generator.TextFrom | src/JsonDbStructure.php:251-291 | parenthesised text under a definer key seen by one round is still there at every later round |
| Generator.DefinerRepeatedEmpty | src/JsonDbStructure.php:272-279 | a later placeholder naming an already expanded definer renders `()`: the `foreach` over the text written back has no rounds |
| Generator.DefinerExpandedFlagShown | src/JsonDbStructure.php:277-281 | a flag naming an already expanded definer is shown upper-cased, since the text written back is truthy |
| Generator.EmptyDefinerList | src/JsonDbStructure.php:273-277 | a definer whose current value has no elements renders as `()` |
| Generator.StructureValueSubstituted | src/JsonDbStructure.php:271-279 | a present placeholder with an ordinary, non-boolean value becomes the value's PHP string |
| Generator.StructureFlag | src/JsonDbStructure.php:280-282 | a flag present in the current declaration becomes the upper-cased name when the attribute is truthy, else `null` |
| Generator.StructureBooleanPlaceholder | src/JsonDbStructure.php:271-281 | a value placeholder whose attribute is boolean acts as a flag: the upper-cased name when true, `null` when false |
| Generator.StructureLiteralKept | src/JsonDbStructure.php:265-289 | a literal with no attribute of its name keeps its text, except an `=` before a dropped token, which is unset; with an attribute of its name it becomes its upper-cased text when that attribute is truthy, else `null` |
| Generator.StructureAbsentDropped | src/JsonDbStructure.php:283-289 | a non-literal token whose attribute is absent is unset, and an `=` written just before it is unset too |
| Generator.FalseFlagKeepsAssign | src/JsonDbStructure.php:281-289 | a flag whose attribute is false is `null`, not unset, so a kept `=` just before it stays |
| Generator.FalseFlagWrite | src/JsonDbStructure.php:281 | the round of a flag whose attribute is present and falsy writes `null` |
| Substitution.ApplyWrite | src/JsonDbStructure.php:342-357 | one iteration changes slot `i`, and slot `i-1` only to unset an `=` before a dropped placeholder; no other slot changes |
| Substitution.ApplyAllPrefix | src/JsonDbStructure.php:318-359 | after `n` iterations, slots before `n` hold their settled form and the rest their template token |
| Substitution.ApplyAllSettled | src/JsonDbStructure.php:251-291 | the in-place loop over the whole template equals the closed form `Settled` |
| Substitution.SurvivorsSkipRemoved | src/JsonDbStructure.php:293 | `implode` skips unset slots wherever they stand |
| Substitution.Enclosed | src/JsonDbStructure.php:375-382 | true exactly when the string is non-empty, starts with `pre` and ends with `post` |
| Substitution.StripMarkers | src/JsonDbStructure.php:257 | neither marker character is left |
| Substitution.ClassifyKinds | src/JsonDbStructure.php:256-267 | a token is a placeholder exactly when it is `{..}` (not in `[..]`), or `[..]` around `{..}`; it is a literal exactly when it is neither bracketed nor braced, and a literal keeps its text |
| Substitution.ClassifyMarkup | src/JsonDbStructure.php:324-339 | reading the markup of a literal, placeholder, flag or comma flag with a marker-free name gives back that token |
| Substitution.AttributeKey | src/JsonDbStructure.php:269 | same length, no spaces; each space becomes `-`, every other character is kept |
| Substitution.FlagSlot | src/JsonDbStructure.php:346-349 | upper-cased name (after `, ` for a comma flag) when the attribute is truthy, else `null` |
| Substitution.DefinerLiteralKept | src/JsonDbStructure.php:337-358 | a literal with no attribute of its name keeps its text, except an `=` before a dropped placeholder, which is unset |
| Substitution.DefinerAbsentDropped | src/JsonDbStructure.php:351-357 | a non-literal token whose attribute is absent is unset, and an `=` written just before it is unset too |
| Substitution.DefinerCommaFlag | src/JsonDbStructure.php:329-349 | `[(name)]` becomes `, NAME` when its attribute is truthy, else `null` |
| Substitution.DefinerValueSubstituted | src/JsonDbStructure.php:341-344 | a placeholder whose attribute is present and not boolean becomes the attribute's PHP string |
| Substitution.DefinerFlag | src/JsonDbStructure.php:341-349 | a flag, or a placeholder whose attribute is boolean, becomes the upper-cased name when the attribute is truthy, else `null` |
| Jsyn.SelectVendor | src/JsynExtractor.php:54-96 | the vendor's list when the document has one, else the `default` list; none exactly when both are missing |
| Jsyn.IsMarked | src/JsynExtractor.php:115 | true exactly when the token is non-empty and starts with `[` or `{` |
| Jsyn.FormatToken | src/JsynExtractor.php:115-119 | length kept; a marked token is lower-cased, any other upper-cased |
| Jsyn.FormatTokens | src/JsynExtractor.php:112-123 | count and order kept; each token formatted on its own |
| Jsyn.FormatTokenKeepsMarker | src/JsynExtractor.php:115-119 | formatting never changes whether a token is marked |
| Jsyn.FormatTokensIdempotent | src/JsynExtractor.php:112-123 | formatting a formatted list changes nothing |
| Jsyn.JsynExtractor.constructor | src/JsynExtractor.php:41-45 | the list kept is the vendor's, or the `default` one, as selected by SelectVendor |
| Jsyn.JsynExtractor.GetJsyn | src/JsynExtractor.php:101-104 | returns the list held |
| Jsyn.JsynExtractor.FormatJsyn | src/JsynExtractor.php:112-123 | the list held becomes FormatTokens of the old list, in place; no list stays no list |
| Jsyn.JsynExtractor.ToString | src/JsynExtractor.php:130-133 | the list held, joined by single spaces: the total length plus one space between neighbours, and at any inner cut the front's join, a space, then the back's join |
| PhpStrings.Substr | src/JsonDbStructure.php:228 | in-range offset and length give exactly that slice; a length past the end stops at the end |
| PhpStrings.Strpos | src/JsonDbStructure.php:394 | the first position where the needle occurs; `false` exactly when it occurs nowhere |
| PhpStrings.ReplaceChar | src/JsonDbStructure.php:269 | pointwise replacement of one character, length kept |
| PhpStrings.RemoveChar | src/JsonDbStructure.php:257 | the character is gone and every other character stays; no-op when absent |
| PhpStrings.Lower | src/JsonDbStructure.php:155 | each ASCII capital lower-cased, length kept |
| PhpStrings.JoinSplit | src/JsonDbStructure.php:460 | cutting the parts at any inner position splits the `implode` at exactly one delimiter |
| PhpStrings.JoinLength | src/JsonDbStructure.php:460 | the joined length is the total length of the parts plus one delimiter between each pair of neighbours |
| PhpStrings.JoinAppend | src/JsonDbStructure.php:460 | joining `xs + ys` is the two joins with one delimiter between |
| Json.LookupFound | src/JsonDbStructure.php:190 | `isset($v[$key])` holds exactly when some entry of `$v` has that key |
| Walker.GroupBase | src/JsonDbStructure.php:410-413 | the kind of a group key: the key cut before its first `-group`, non-empty and itself `-group`-free |
| Walker.GroupBaseOfSuffixed | src/JsonDbStructure.php:81 | `<kind>-group` is a group key whose base is `<kind>` |
| Walker.StrposOfSuffixed | src/JsonDbStructure.php:394 | `strpos` finds `-group` at the end of a `-group`-free prefix |
| Walker.GroupBaseNotGroup | src/JsonDbStructure.php:410-412 | the base of a group key is never a group key |
| Walker.UseStatement | src/JsonDbStructure.php:402-405 | `USE ` followed by the declaration's `name`, or by nothing when it has none |
| Walker.OwnStatement | src/JsonDbStructure.php:395-398 | a non-whitelisted key gives no statement; a whitelisted one gives exactly the rendering of `[$key => $v]`, and its failure |
| Walker.WalkEntryObject | src/JsonDbStructure.php:394-409 | a key that is not a group key is walked as one object, with `USE` when it lower-cases to `:database` |
| Walker.WalkEntryGroup | src/JsonDbStructure.php:410-425 | a group key is walked element by element under its base kind |
| Walker.WalkGroupStep | src/JsonDbStructure.php:411-423 | element `k` is walked before the elements after it |
| Walker.WalkObjectOwnFails | src/JsonDbStructure.php:396-398 | a failing own statement is the failure of the whole object |
| Walker.WalkObjectLeaf | src/JsonDbStructure.php:400-401 | an object with no kind nested in it gives only its own statements |
| Walker.WalkObjectNested | src/JsonDbStructure.php:400-408 | an object with a nested kind gives its statements, the optional `USE`, then the nested object's walk |
| Walker.WalkFieldsAppend | src/JsonDbStructure.php:393 | walking `fs + gs` gives the statements of `fs`, then those of `gs` |
| Walker.WalkFieldsFailurePersists | src/JsonDbStructure.php:393 | a failure among the first `k` entries is the failure of the whole document |
| Walker.WalkSingle | src/JsonDbStructure.php:395 | a one-entry document is walked as its entry |
| Walker.GroupAsSeparateEntries | src/JsonDbStructure.php:410-424 | a non-database group behaves exactly like one entry of the base kind per element, in list order |
| Walker.DatabaseUsesOnce | src/JsonDbStructure.php:402-405 | below a database, the nested object follows the database's own statements and a single `USE <name>` |
| Walker.DatabaseDocument | src/JsonDbStructure.php:391-409 | the document `{":database": decl}` gives its statement, `USE <name>`, then the nested objects' statements |
| Walker.UnknownKeyIgnored | src/JsonDbStructure.php:394-400 | an unknown, non-group key with nothing recognised inside gives nothing |
| Walker.UnknownKeyDescends | src/JsonDbStructure.php:394-408 | an unknown, non-group, non-database key still has its nested object walked |
| Walker.LowerHyphenFree | src/JsonDbStructure.php:402 | a key whose lower-case form has no hyphen is never a group key |
| Walker.ThenAssoc | src/JsonDbStructure.php:393 | the grouping of walks in sequence does not matter |
| Scripd.JsonDbStructure.constructor | src/JsonDbStructure.php:112-120 | document, templates and vendor (default `default`) stored; no statements yet |
| Scripd.JsonDbStructure.SetJsynDirectory | src/JsonDbStructure.php:127-130 | templates replaced, nothing else changes |
| Scripd.JsonDbStructure.SetSqlVendor | src/JsonDbStructure.php:137-140 | vendor replaced, nothing else changes |
| Scripd.JsonDbStructure.LoadJsyn | src/JsonDbStructure.php:246-248 | an extractor followed by `formatJsyn` and `getJsyn` gives LoadTemplate |
| Scripd.JsonDbStructure.GenerateSqlFromObjectDefiner | src/JsonDbStructure.php:306-363 | the in-place loop renders `DefinerSql` of the element |
| Scripd.JsonDbStructure.FillDefinerSlot | src/JsonDbStructure.php:319-358 | one iteration of the definer loop is `ApplyWrite` of that token's write |
| Scripd.JsonDbStructure.ExpandDefiner | src/JsonDbStructure.php:273-276 | the loop over a definer list gives DefinerSqls, stopping at the first failing element |
| Scripd.JsonDbStructure.FillStructureSlot | src/JsonDbStructure.php:252-290 | one iteration of the structure loop: success, slots, declaration afterwards and error are those of StructureStep |
| Scripd.JsonDbStructure.FillStructureTemplate | src/JsonDbStructure.php:250-291 | the in-place loop over the template, updating the declaration as line 277 does, gives StructurePass |
| Scripd.JsonDbStructure.GenerateSqlFromStructure | src/JsonDbStructure.php:239-294 | the statement is StructureSql of the document |
| Scripd.JsonDbStructure.ParseStructure | src/JsonDbStructure.php:391-429 | the result is Walk of the document; on success exactly those statements are appended to `generatedSql` |
| Scripd.JsonDbStructure.ParseEntry | src/JsonDbStructure.php:393-425 | one entry gives WalkEntry and appends its statements |
| Scripd.JsonDbStructure.ParseGroup | src/JsonDbStructure.php:410-424 | a group gives WalkGroup from its first element and appends its statements |
| Scripd.JsonDbStructure.ParseElement | src/JsonDbStructure.php:411-423 | element `k` extends the statements of the elements before it, or is the group's failure |
| Scripd.JsonDbStructure.ParseObject | src/JsonDbStructure.php:394-409 | an object gives WalkObject and appends its statements |
| Scripd.JsonDbStructure.ParseOwnStatement | src/JsonDbStructure.php:395-398 | the object's own statement gives OwnStatement and is appended |
| Scripd.JsonDbStructure.GetGeneratedSql | src/JsonDbStructure.php:458-461 | "" for no statements, the statement itself for one; otherwise the total length plus one delimiter between neighbours, and cutting the statements at any inner position gives the join of the front, the delimiter, then the join of the back, so the statements appear in order |
| Findings.AsWrittenGroupStrip | src/JsonDbStructure.php:412 | as written: a key keeps its first `strlen - strpos` characters, or all of them when `-group` is absent |
| Findings.AsWrittenGroupKeys | src/JsonDbStructure.php:411-413 | as written: the key used in each round of the element loop, starting from the first cut |
| Findings.AsWrittenKeepsSix | src/JsonDbStructure.php:412 | as written, `<kind>-group` always keeps exactly six characters |
| Findings.AsWrittenRightIffSix | src/JsonDbStructure.php:412 | as written, the cut finds the group's kind exactly when the kind has six characters |
| Findings.AsWrittenKeysStable | src/JsonDbStructure.php:411-413 | a key without `-group` is kept in every round |
| Findings.ViewGroupStrip | src/JsonDbStructure.php:412 | `:view-group` is cut to `:view-`, while its base is `:view` |
| Findings.ViewGroupLosesKind | src/JsonDbStructure.php:410-416 | every element of `:view-group` is declared under `:view-`, which is not a kind; the intended `:view` is one |
| Findings.ViewGroupElementSilent | src/JsonDbStructure.php:413-416 | as written, an element of `:view-group` renders nothing, while under `:view` it renders its view |
| Findings.NextKind | src/JsonDbStructure.php:407 | as written, the next round's kind is looked up in the parent declaration under the current kind |
| Findings.LoopKinds | src/JsonDbStructure.php:400-409 | the kinds a `while` runs its body for: at most `fuel` of them, none for an absent kind, starting with the first |
| Findings.ShopKinds | src/JsonDbStructure.php:400 | the shop database holds `:table` (orders), and orders holds `:index` |
| Findings.UsePerRound | src/JsonDbStructure.php:401-408 | as written (`AsWrittenLoopStatements`: per round, `USE <name>` below a database, then that round's recursive call), below a database there are at least as many `USE <name>` statements as rounds of the loop |
| Findings.DatabaseTwoRounds | src/JsonDbStructure.php:401-408 | two rounds below a database give `USE <name>`, the first round's statements, `USE <name>` again, the second round's statements |
| Findings.ShopLoopRunsTwice | src/JsonDbStructure.php:400-408 | as written, the loop below `shop` runs for `:table` and then `:index` (absent from `shop`), and appends `USE shop` before each round's statements: twice |
| Findings.ShopStatements | src/JsonDbStructure.php:402-408 | two rounds below `shop` give `USE shop`, the first round's statements, `USE shop`, the second round's statements |
| Findings.TwoRounds | src/JsonDbStructure.php:401-408 | a loop whose second kind has no next kind runs exactly twice |
| Findings.ShopUsesOnce | src/JsonDbStructure.php:402-405 | corrected: `shop` gives its statement, one `USE shop`, then the table's statements |
| Findings.CyclicKinds | src/JsonDbStructure.php:407 | in the table-in-a-table document, the next kind after `:table` is `:table` again |
| Findings.SelfNestedLoopNeverEnds | src/JsonDbStructure.php:401-408 | a loop whose next kind is the kind it just had uses up any fuel |
| Findings.CyclicLoopNeverEnds | src/JsonDbStructure.php:400-408 | as written, the loop below the table-in-a-table document runs for `:table` with no bound |
| Findings.CyclicWalkedOnce | src/JsonDbStructure.php:400-408 | corrected: the same document gives one `USE` and one descent into a strictly smaller value |

## Left out

- File I/O:
  - reading and decoding the document file (`getObjectFromJsonFile`, `src/JsonDbStructure.php:171-176`) and the template files (`src/JsynExtractor.php:56`);
  - documents and templates are handed in already decoded, as `Json.Value` and `Generator.Templates`;
  - `setJsynDirectory` replaces the template table;
  - malformed JSON cannot occur.
- JSON `null` and floating-point numbers: `Json.Value` has neither.
  - A null attribute is modelled as an absent key, which `isset` makes equivalent.
  - A null element inside a definer list or a group list cannot be written at all. The source still renders such a definer element (lines 274-275): every key of it reads as null, so only the literals of the definer template remain.
  - Floats would need PHP's float-to-string conversion.
- A declaration that is not an array, and an array-valued `:crud-action`. The model stops with `StructureError` in all three cases below; the source does not.
  - A string declaration: line 242 and the `isset` tests of lines 270-289 index into the string.
  - An integer or boolean declaration: every key reads as null. Line 155 turns the null action into "", so `-<kind>.jsyn` is loaded, no `isset` of lines 270-289 holds, and PHP renders that template's literals with every placeholder dropped.
  - An array-valued `:crud-action`: `strtolower` at line 155 throws a `TypeError` in PHP 8.
- PHP warnings and type errors: where the source would run on with `null`
  and fail later (a missing template file, a missing vendor list), the
  model stops with an `Error`. No partial `$jsyn` state is modelled.
- The reassignment of `$this->jsonStructure` before each recursive
  `parseStructure` call (lines 406 and 420).
  - The model passes the nested document as an argument, and `jsonStructure` keeps its value.
  - After a call, the source instead leaves the field holding the last nested document.
- Scripd.JsonDbStructure.ParseStructure: follows the corrected walk, not the source's `while` loops (lines 401-408 and 419-423).
  - The model descends once into the first nested kind and cuts group keys at `-group`.
  - The loops as written are modelled only in the Findings module.
  - Because the source's loop need not terminate, that model is bounded by `fuel`.
- Scripd.JsonDbStructure.ParseObject: follows the corrected walk: one descent into the first nested kind, with `USE` once, not the `while` loop of lines 401-408.
- Scripd.JsonDbStructure.ParseGroup: follows the corrected walk: the group key is cut where `-group` starts, not as line 412 cuts it.
- Scripd.JsonDbStructure.ParseElement: follows the corrected walk: one descent per element, not the `while` loop of lines 419-423.
- Scripd.JsonDbStructure.ParseStructure: promises the contents of `generatedSql` only on success.
  - On failure the source has thrown and the statements appended so far are lost to the caller.
  - To the caller, the partial list is undefined.
- Scripd.JsonDbStructure.GenerateSqlFromObjectDefiner: takes one element rather than `[$definer => $element]`.
  - The outer `foreach` (line 316) runs once over the one-entry array its only caller builds (line 275).
  - Longer arrays are not modelled.
- The dynamic property `$this->crudAction` set by `guessJsynFileName` (line 155) is not a field; nothing reads it.
- `$specialCharacters` (lines 64-71) is written as character constants in `Substitution.Classify`.
- Duplicate keys: `Json.Value`'s objects are field lists, which may repeat a key; a decoded PHP array cannot.
  - `Lookup` takes the first field with the key, as `isset` does for unique keys.
  - The walk visits every field, so a document with a repeated key is outside what the source can receive.
- `strtolower`/`strtoupper` are ASCII-only, as in PHP 8. Multibyte text is not modelled.

## Findings

| source | as written | input that shows it | evidently intended | confidence | as-written member | corrected member |
|---|---|---|---|---|---|---|
| src/JsonDbStructure.php:412 | the key is cut to its first `strlen - strpos` characters, where `strpos` is the position of `-group`; for `<kind>-group` that is always six characters | `{":view-group": [{...}]}`: the key becomes `:view-`, which is not a kind, so no `CREATE VIEW` is rendered | cut the key where `-group` starts, giving `:view` | not executed | Findings.AsWrittenGroupStrip, Findings.ViewGroupLosesKind, Findings.ViewGroupElementSilent | Walker.GroupBase, Walker.GroupBaseOfSuffixed, Walker.GroupAsSeparateEntries |
| src/JsonDbStructure.php:400-408 | the `while` loop looks the next kind up in the parent declaration (`$jsonStructure[$object][$topLevelObject]`), not in the child just walked | `{":database": {"name": "shop", ":crud-action": "create", ":table": {"name": "orders", ":crud-action": "create", ":index": {":crud-action": "create"}}}}` runs the loop twice, giving `USE shop` twice; `{":database": {":crud-action": "create", ":table": {":crud-action": "create", ":table": {":crud-action": "create"}}}}` never leaves the loop, since `:table` is found again in every round | walk the first nested object once, with `USE <name>` once below a database | not executed | Findings.ShopLoopRunsTwice, Findings.ShopStatements, Findings.CyclicLoopNeverEnds | Walker.DatabaseUsesOnce, Findings.ShopUsesOnce, Findings.CyclicWalkedOnce |
