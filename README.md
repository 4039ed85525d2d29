# OpenAPI YAML normalisers

This project models the text rewriting done by four scripts that repair
and check an eMASS OpenAPI YAML document:

- `fix_openapi_yaml.py` is the standalone fixer. It replaces the `x-faker` /
  `random.arrayElement` blocks with enumerations of the NIST 800-53
  control acronyms and of the six-digit CCI codes. It has two control
  passes: one anchored at an `acronym:` key, and one for bare blocks.
  Finally it deletes the items of four invalid control names.
- `openapi-tools/fix_openapi_with_llm.py` is the fixer that, after writing
  its output, checks the YAML syntax and runs the external `openapi-llm`
  validator. Its fix stages run in a fixed order:
  1. drop extra document markers (`---` lines);
  2. apply the anchored control substitution;
  3. apply the CCI substitution;
  4. remove the invalid items, recording which ones were found;
  5. run a formatting pass: delete orphaned `x-faker` blocks,
     right-strip every line, and ensure a final newline.
- `clean_yaml.py` is the standalone cleaner. Its stages are:
  1. the same marker rule;
  2. orphan deletion;
  3. re-indenting the comment under an `enum:` key;
  4. right-stripping every line;
  5. a final newline.

  It records each change and writes the file only when the text changed.
- `openapi-tools/validate_yaml.py` is the validator. It runs three checks:
  - separator markers between newlines;
  - `pattern:` lines and leftover `x-faker` text;
  - the shape of the first parsed document.

  It derives a verdict and an exit status from them.

Every regular expression the scripts use is fixed. Each one is modelled
as a deterministic matcher, `Regex.Match(p, s, i)`. It returns the end of
the match that Python's backtracking engine finds at `i` and the captured
groups. `re.sub` is modelled as one leftmost, non-overlapping scan
(`Regex.SubWith`). The scan expands a parsed replacement template
(`Regex.ParseTemplate`, `Regex.Fill`) at every match. Modules:

- `Text`: line splitting and joining, `strip`, `str.count`, and substring
  search.
- `Regex`: the patterns, their matchers, the template language and
  `re.sub`.
- `Tables`: the control table (17 families, 190 identifiers), the CCI
  table (72 codes), and their rendered texts.
- `Annotations`: the anchored control and CCI substitutions that both
  fixers share.
- `Separators`: the marker rule, "keep only the first marker, and only
  when it is one of the first five lines".
- `Formatting`: deletion by pattern, right-stripping, the final newline,
  and the removal of invalid items.
- `FixWithLlm`, `FixYaml`, `CleanYaml` and `Validate`: one module per
  script.

## Model

| member | source | states |
|---|---|---|
| Text.JoinSplit | openapi-tools/fix_openapi_with_llm.py:35-57 | Splitting on newlines and joining the pieces back gives the original text. |
| Text.CountPositiveIffContains | clean_yaml.py:46-54 | The `str.count` of a non-empty needle is positive exactly when the text contains the needle. |
| Text.JoinContainsLine | openapi-tools/validate_yaml.py:17-27 | If a newline-free `x` stands between two newlines of the joined text, then `x` is one of the lines after the first. |
| Regex.FirstItemIsFirst | fix_openapi_yaml.py:301 | The lazy `[\s\S]*?` item search finds the first position where the item matches, and none before it. |
| Regex.DeleteChangesIffFound | openapi-tools/fix_openapi_with_llm.py:382-385 | `re.sub` with an empty replacement changes the text exactly when `re.search` finds the pattern. |
| Regex.NoSearchNoChange | fix_openapi_yaml.py:337-338 | When the pattern occurs nowhere, `re.sub` returns the text unchanged. |
| Regex.SubWithAtFirst | fix_openapi_yaml.py:305 | At the first match, `re.sub` keeps the text before it, emits the filled template, and continues after the match. |
| Regex.FakerMatchNeedsFaker | clean_yaml.py:47-51 | A match of any of the `x-faker` patterns (anchored control, bare control, CCI, orphan block) implies that the text contains `x-faker`. |
| Regex.FakerFreeUnchanged | openapi-tools/fix_openapi_with_llm.py:401-405 | Text without `x-faker` passes every `x-faker` substitution unchanged. |
| Tables.ControlTableSize | fix_openapi_yaml.py:10-219 | The control enumeration has 17 families and 190 identifiers. |
| Tables.AllFamiliesWellFormed | fix_openapi_yaml.py:10-219 | Every family code is two capital letters. Every identifier is its family's code, a dash, then digits and parentheses only. Every family title holds only letters other than `x` and spaces. |
| Tables.ControlEnumFakerFree | fix_openapi_yaml.py:303 | The control enumeration contains no `x-faker`, so a substitution cannot reintroduce one. |
| Tables.NoBackslashInControlEnum | fix_openapi_yaml.py:303 | The control enumeration has no backslash, so `re.sub` copies it literally. |
| Tables.InvalidLiteralsAbsent | fix_openapi_yaml.py:330-335 | None of the four invalid names (S-1, S-23, UA-16, SI-56) is an identifier of any control family. |
| Tables.CciTable | fix_openapi_yaml.py:221-296 | The CCI enumeration lists 72 codes, strictly ascending, each below 1000000. |
| Tables.SixDigitsValue | fix_openapi_yaml.py:223 | The six-digit rendering of a code below 1000000 reads back as that code. |
| Tables.CciEnumFakerFree | fix_openapi_yaml.py:322 | The CCI enumeration contains no `x-faker`. Its only backslash is the doubled one in the `pattern:` line. |
| Annotations.ControlTemplateReads | fix_openapi_yaml.py:303 | The replacement `\1\n` plus ten spaces plus the enumeration parses as group one, a newline, and the literal text. It refers only to the pattern's one group. |
| Annotations.CciTemplateReads | fix_openapi_yaml.py:322 | The CCI replacement parses the same way. The doubled backslash of the `pattern:` line becomes a single one. |
| Annotations.ControlSiteRewritten | fix_openapi_yaml.py:301-305 | At the first anchored block, the text before it is kept. The anchor line is followed by a newline, ten spaces and the control enumeration. The scan then resumes after the block. |
| Annotations.CciSiteRewritten | fix_openapi_yaml.py:320-324 | At the first CCI block, the `example:` line is followed by a newline, ten spaces and the CCI enumeration with a single backslash. The scan then resumes after the block. |
| Annotations.StagesFakerFree | openapi-tools/fix_openapi_with_llm.py:272-274 | Text without `x-faker` passes both annotation substitutions unchanged. |
| Annotations.AnchoredGroupShape | fix_openapi_yaml.py:301 | The captured group is the whole `acronym:` line, up to but not including its newline. |
| Annotations.AnchoredEnd | fix_openapi_yaml.py:301 | An anchored match ends right after an `SI-4(11)` item. That item is the first one after the `AC-1` item that opens the list: the lazy scan stops at no earlier `SI-4(11)` item. |
| Annotations.ControlRewriteInert | fix_openapi_yaml.py:301-305 | A rewritten anchor, followed by its line and the control text, no longer matches the anchored pattern. |
| Annotations.CciGroupIs | fix_openapi_yaml.py:320 | The group a CCI match captures is `example:`, optional whitespace and six optionally quoted digits, with nothing after them. |
| Annotations.CciEnd | fix_openapi_yaml.py:320 | A CCI match ends right after a six-digit item. That item is the first one after the `random.arrayElement:` key: the lazy scan stops at no earlier six-digit item. |
| Annotations.CciRewriteInert | fix_openapi_yaml.py:320-324 | A captured `example:` group followed by a newline and the inserted CCI text no longer matches the CCI pattern. The inserted text starts with ten spaces and `pattern:`, not `x-faker:`. |
| Separators.DeduplicateLines | openapi-tools/fix_openapi_with_llm.py:35-57 | The deduplicated text has the retained lines of the input. In the result, the only marker is a kept first marker in the first five lines. |
| Separators.DeduplicateIdempotent | openapi-tools/fix_openapi_with_llm.py:40-50 | Deduplicating twice gives the same text as deduplicating once. |
| Separators.DeduplicateKeepsUnmarked | openapi-tools/fix_openapi_with_llm.py:40-50 | Every line that is not a marker is kept, in order. |
| Separators.DeduplicateUnmarked | openapi-tools/fix_openapi_with_llm.py:40-50 | A text with no marker line is left as it is. |
| Separators.KeptMarkersAtMostOne | openapi-tools/fix_openapi_with_llm.py:43-48 | At most one marker is kept. One is kept exactly when a marker stands in the first five lines. |
| Separators.SettledHasOneMarker | clean_yaml.py:28-38 | In settled text, at most one line is a marker, and it lies in the first five lines. |
| Separators.RetainedFromInput | clean_yaml.py:28-38 | Every retained line is a line of the input. |
| Formatting.DeleteIsSub | clean_yaml.py:47-51 | Deletion is `re.sub` with an empty replacement. It changes the text exactly when the pattern is found, and never lengthens it. |
| Formatting.DeleteFakerFree | clean_yaml.py:47-51 | Deleting an `x-faker` pattern from text without `x-faker` changes nothing. |
| Formatting.RStripLinesShape | openapi-tools/fix_openapi_with_llm.py:411-412 | Each line of the result is the right-stripped input line. The newline count is kept, and no line ends in whitespace. |
| Formatting.RStripLinesIdempotent | clean_yaml.py:61-63 | Stripping twice is the same as stripping once. |
| Formatting.UntrimmedCountZeroIffUnchanged | clean_yaml.py:62-65 | The count of lines `rstrip` changes is zero exactly when stripping leaves the text as it was. |
| Formatting.EnsureFinalNewline | clean_yaml.py:67-69 | The result is the text or the text plus one newline. A non-empty result ends in a newline. The text is unchanged exactly when it is empty or already ends in a newline. |
| Formatting.EnsureFinalNewlineIdempotent | openapi-tools/fix_openapi_with_llm.py:415-416 | Ensuring the final newline twice is the same as ensuring it once. |
| Formatting.RStripSpaces | openapi-tools/fix_openapi_with_llm.py:411-412 | Whitespace-only text strips to its newlines alone. |
| Formatting.FoundIsChanged | openapi-tools/fix_openapi_with_llm.py:382-385 | The names recorded as removed are exactly those whose deletion changed the text. |
| Formatting.DeleteAllShrinks | fix_openapi_yaml.py:337-338 | Removing the invalid items never lengthens the text. |
| Formatting.InvalidItemShape | fix_openapi_yaml.py:331-334 | An invalid-item match starts at the dash. It runs over whitespace to the name and its newline. |
| Formatting.LastLineKept | fix_openapi_yaml.py:331-334 | An item with no newline after it, such as the last line without one, is never deleted. |
| Formatting.LongerItemKept | fix_openapi_yaml.py:331 | A dash whose item goes on past the name without a newline does not start a deletion there. For example, `S-10` is not deleted by the pattern for `S-1`. |
| Formatting.DashesKept | fix_openapi_yaml.py:337-338 | When no dash starts a match, deleting an invalid item leaves the text as it is. |
| Formatting.OneItemDeleted | fix_openapi_yaml.py:337-338 | With a single match, deleting an invalid item cuts out exactly that span. |
| Formatting.RemovalNotIdempotent | fix_openapi_yaml.py:328-340 | Removing the invalid items from `-\n- S-1\nS-1\n` leaves `-\nS-1\n`. Removing them again leaves the empty text. |
| FixWithLlm.FixMultipleDocuments | openapi-tools/fix_openapi_with_llm.py:29-57 | The loop returns the deduplicated text. Its removed count is the number of markers less the one kept. |
| FixWithLlm.RemoveInvalidControls | openapi-tools/fix_openapi_with_llm.py:372-392 | The result is every invalid item deleted in list order. The recorded names are, in order, those that `re.search` found. |
| FixWithLlm.CleanFormattingShape | openapi-tools/fix_openapi_with_llm.py:395-423 | No output line ends in whitespace, and non-empty output ends in a newline. The output has the lines left by the orphan step, plus one when a newline was added. |
| FixWithLlm.OrphanRecordNeedsFaker | openapi-tools/fix_openapi_with_llm.py:400-408 | At most one record is made. It appears exactly when the `x-faker` count dropped, and only when the text held `x-faker`. |
| FixWithLlm.CleanFormattingFakerFree | openapi-tools/fix_openapi_with_llm.py:399-416 | Without `x-faker`, formatting only strips lines and adds the final newline, and records nothing. |
| FixWithLlm.CleanFormattingSpaces | openapi-tools/fix_openapi_with_llm.py:395-423 | Whitespace-only text comes out as its newlines alone. |
| FixWithLlm.Run | openapi-tools/fix_openapi_with_llm.py:522-540 | The stages run in order, each on the previous stage's output. No output line ends in whitespace, and non-empty output ends in a newline. |
| FixWithLlm.TrimmedClean | openapi-tools/fix_openapi_with_llm.py:395-423 | Formatting leaves a text unchanged when it has no `x-faker`, no line ends in whitespace, and it is empty or ends in a newline. |
| FixWithLlm.FixedNotIdempotent | openapi-tools/fix_openapi_with_llm.py:522-540 | The fixer is not idempotent, on the same sample text as the standalone fixer. Marker removal and formatting leave the sample as it is. |
| FixYaml.BareTemplateReads | fix_openapi_yaml.py:308-313 | The bare pass's replacement has no backslash, so `re.sub` copies it literally. |
| FixYaml.BareSite | fix_openapi_yaml.py:308-313 | At the first bare block, the text before it is kept, the enumeration is emitted, and the scan resumes after the block. |
| FixYaml.BareSpan | fix_openapi_yaml.py:309 | A bare block starts at an `x-faker:` key. It ends right after the first `SI-4(11)` item after the `AC-1` item (and its newline) that opens the list. |
| FixYaml.BareRewriteInert | fix_openapi_yaml.py:308-313 | A rewritten bare site does not match the bare pattern again. |
| FixYaml.FixControlFakerFree | fix_openapi_yaml.py:298-315 | Text without `x-faker` passes both control passes unchanged. |
| FixYaml.RemoveInvalidControls | fix_openapi_yaml.py:328-340 | The loop deletes every invalid item, in list order. |
| FixYaml.Run | fix_openapi_yaml.py:363-371 | The three stages run in order. The removal stage never lengthens the text. |
| FixYaml.FixedFakerFree | fix_openapi_yaml.py:363-371 | Without `x-faker`, only the invalid items are removed. |
| FixYaml.FixedNotIdempotent | fix_openapi_yaml.py:363-371 | The fixer is not idempotent. It turns `-\n- S-1\nS-1\n` into `-\nS-1\n`, and a second run turns that into the empty text. |
| CleanYaml.DropSeparatorLines | clean_yaml.py:22-40 | The loop keeps the retained lines and records each dropped marker by its 1-based line. |
| CleanYaml.SeparatorRecordsCount | clean_yaml.py:28-38 | There is one record per dropped marker: the markers less the one kept. |
| CleanYaml.SettledNoRecords | clean_yaml.py:28-38 | Text the marker rule leaves unchanged gets no separator record. |
| CleanYaml.RemoveOrphanBlocks | clean_yaml.py:45-54 | The step deletes orphan blocks and records the drop in `x-faker` occurrences. |
| CleanYaml.OrphanRecordsNeedFaker | clean_yaml.py:46-54 | At most one orphan record is made. It appears exactly when the `x-faker` count drops, which needs `x-faker` in the text. |
| CleanYaml.EnumTemplateReads | clean_yaml.py:58 | `\n\1enum:\n\1  #` parses as a newline, group one, `enum:`, a newline, group one, and two spaces then `#`. It refers only to the pattern's groups. |
| CleanYaml.FixEnumCommentsIsSub | clean_yaml.py:58 | The enum fix is the `re.sub` of the enum pattern with that template. |
| CleanYaml.EnumMatchShape | clean_yaml.py:58 | A match begins with a newline and the header's non-empty whitespace, followed by `enum:` and a newline. |
| CleanYaml.EnumSiteRewritten | clean_yaml.py:58 | At the first match, the comment line takes the header's indentation plus two spaces. |
| CleanYaml.EnumSiteStable | clean_yaml.py:58 | A rewritten site matches again at the same place, and is rewritten to itself. |
| CleanYaml.StripTrailingWhitespace | clean_yaml.py:60-65 | The step strips every line and records the count of changed lines. |
| CleanYaml.TrailingRecordsIff | clean_yaml.py:62-65 | The strip record appears exactly when stripping changes the text. |
| CleanYaml.NewlineRecordsIff | clean_yaml.py:67-70 | The newline record appears exactly when a newline is appended. |
| CleanYaml.CleanedShape | clean_yaml.py:60-70 | No cleaned line ends in whitespace, and non-empty output ends in a newline. |
| CleanYaml.Clean | clean_yaml.py:10-89 | Returns the cleaned text and the records. The target is the output path when given, else the input path. The file is written exactly when the text changed. |
| Validate.ListedIff | openapi-tools/validate_yaml.py:24-27 | A listing holds `(i, x)` exactly when `x` is line `i`, counting from 1, and the test holds for `x`. |
| Validate.MultipleIffSeparator | openapi-tools/validate_yaml.py:17-19 | The check fires exactly when `\n---\n` or `\n--- \n` occurs. |
| Validate.FlaggedListsMarkers | openapi-tools/validate_yaml.py:19-28 | When the check fires, it lists every marker line with its number, and the list is not empty. |
| Validate.LeadingMarkerNotFlagged | openapi-tools/validate_yaml.py:17-19 | A marker on the first line is never counted. For any rest of the text, the count equals that of `\n` followed by the rest. The check fires exactly when `\n---\n` or `\n--- \n` occurs in that. |
| Validate.CheckPatternIssues | openapi-tools/validate_yaml.py:53-92 | Lists every `pattern:` line with its number, in order, and shows the first five of them, or all of them when there are fewer. Counts `enum:`. Reports the issue exactly when `x-faker` occurs. |
| Validate.FakerLinesShape | openapi-tools/validate_yaml.py:84-88 | At most ten `x-faker` lines are shown, ascending and each holding `x-faker`. Some are shown exactly when the text holds `x-faker`. |
| Validate.StructureOutcomes | openapi-tools/validate_yaml.py:94-129 | The check returns false exactly for an empty list, a first document that is not a mapping, or one without `openapi` and `swagger`. It returns true for a well-shaped first document. |
| Validate.OnlyFirstDocument | openapi-tools/validate_yaml.py:102 | Only the first document affects the structure check. |
| Validate.Validate | openapi-tools/validate_yaml.py:131-178 | The exit status is 1 exactly when parsing failed, or when the structure check raised on a non-empty document list. Otherwise the verdict is, in order: multiple documents, the `x-faker` issue, or valid. |

## Left out

- Reading and writing files, the command line, and everything printed are not modelled. Texts read are inputs. Where `clean_yaml` would write is a result.
- `validate_with_openapi_llm` in `fix_openapi_with_llm.py` is left out because it runs an external program.
- `validate_yaml_syntax` in `fix_openapi_with_llm.py` is left out because it parses with `yaml.safe_load_all`, and the YAML parser is not part of this model. The pipeline is modelled from step 2 (separators) to step 6 (formatting).
- `check_yaml_syntax` depends on a YAML parser, which is not part of this model. `Validate.Validate` takes the parsed documents, or `None` for a syntax error, as a parameter.
- Regex matching is modelled for the fixed patterns only, not for a general engine. `\d` and `\w` are taken as ASCII. Python's `str` patterns also accept other Unicode digits and letters there.
- Validate.CheckPatternIssues: the backslash test at `validate_yaml.py:68` is not modelled. Both of its branches continue the loop, so it has no effect.
- `Validate.Node` covers null, scalars, strings, sequences and string-keyed mappings. Non-string keys, byte strings and sets are not modelled.
- CleanYaml.EnumSiteStable: full idempotence of the enum fix over a whole text is not claimed. Only the stability of one rewritten site is.
- CleanYaml.Clean: idempotence of the whole cleaner is not stated. Each stage's own idempotence or stability is proved where it holds.
- Idempotence of the two fixers: it does not hold, so it is not promised. Deleting `- S-1` and its newline can bring a bare dash line next to a line that holds `S-1`, which forms a new item. `FixYaml.FixedNotIdempotent` and `FixWithLlm.FixedNotIdempotent` show such a text.
- Where the code and the scripts' own descriptions differ, the model follows the code:
  - The control and CCI replacements put ten literal spaces after the anchor line. They do not copy the anchor's indentation.
  - The orphan records count the drop in `x-faker` occurrences, not the blocks deleted.
  - Extra trailing blank lines are kept; only a missing final newline is added.
  - An invalid-item match starts at the dash. The indentation before it stays and becomes the prefix of the next line.
  - Whitespace-only text becomes its newlines alone. It is empty only when it had no newline.
  - `check_openapi_structure` can raise a `TypeError`, for example `'title' in None`. `main` then reports an unexpected error and exits with status 1.
  - `clean_yaml.py:42-43` never fires: `separator_count` stays at most 1 (see `CleanYaml.DropSeparatorLines`).
  - The enum-comment fix in `clean_yaml` adds no change record.
