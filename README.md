# nmsmc core in Dafny

nmsmc is a mod creator for No Man's Sky. It reads a *definition file* and builds a plan from it.
The plan holds output paks. Each output pak holds input paks, each input pak holds MBIN files, and
each MBIN file holds modifications. A modification is one `cd` selector followed by `name=value`
pairs. The program then extracts every input pak and replays every modification on the XML
document of its MBIN file. Finally it saves every output pak.

This project models the core of that pipeline and proves properties of the model:

- `parse_definition` (module `Parser`, rules in `ParserRules`). This is the line-oriented state
  machine with its static cursors, `!include`, and the `search_input_pak` / `search_mbin`
  lookups (module `Plan`). The plan types mirror `src/definition.h`. The model arena-allocates
  every output pak ever created, and the returned list is a suffix of that arena.
- `set_xpath` (module `XPath`, rules in `XPathRules`). This turns a selector into an XPath
  expression held in the global buffer, which behaves like a working directory.
- `set_item` (module `Upsert`, rules in `UpsertRules`). This is an upsert of one name/value pair
  under every node the XPath selects, on an element arena that stands for the libxml2 tree.
- The replay loop of `process_definitions` (module `Replay`, rules in `ReplayRules`).
- `get_mbin_list` and `get_complete_mbin_list` (module `MbinList`), with the `.MBIN` to `.EXML`
  rewrite (module `Exml`).
- `trim` (module `Misc`), and `path_to_unix` / `path_to_dos` (module `FsUtils`). These work on
  NUL-terminated `array<char>` buffers in place. Module `CStrings` models the libc pieces they
  rely on: `strlen`, `strchr`, `strstr`, `strtok` and `isspace`.

Code that mutates state becomes imperative Dafny, and each such method is proved against a
specification function.

- `DefinitionParser` has the static cursors as fields. Its methods are proved equal to
  `ParseLine` / `ParseFile`.
- `XPathBuffer.SetXPath` is proved against `Translate`.
- `Document.SetItem` is proved against `SetItemSpec`.
- `ProcessDefinitions` is proved against `Process`.
- `ArgList` is proved against `Names` / `AllNames`.
- `TrimInPlace` is proved against `Trim`.
- `PathToUnix` / `PathToDos` are proved against `ReplaceChar`.

The properties are then proved about the specification functions as lemmas.

Where the code and the project's own prose disagree, the model follows the code:

- The bracketed selector form is `name[=value]`: the `[` sits right before the `=`, and the value
  must end with `]`.
- An `!include` whose file cannot be opened, or whose parse fails, is not fatal. The caller's list
  becomes NULL, and the caller goes on parsing with the cursors the include left.
- `path_to_dos` turns forward slashes into backslashes. Its doc comment (src/fs_utils.c:147) and
  the comment at :172 say the opposite.
- Two different `.MBIN` to `.EXML` rewrites exist:
  - `get_complete_mbin_list` rewrites every occurrence (`ExmlName`).
  - `get_input_files` and `process_definitions` replace only the first occurrence and drop the
    rest of the name (`ExmlFileName`).
  - `FormsAgreeOnSuffix` and `FormsDiffer` prove where the two agree and where they differ.

## Model

| member | source | states |
|---|---|---|
| CStrings.IsSpaceRange | src/misc.c:67-75 | isspace holds exactly for the space and the control characters from tab to carriage return |
| CStrings.HasPrefixIsJoin | src/definition.c:197 | CHECK_TOKEN(x) holds exactly when the line is x followed by the rest of the line |
| CStrings.CLen | src/misc.c:64 | the C length is the index of the first NUL, and no NUL comes before it |
| CStrings.Content | src/misc.c:64 | the string a buffer holds is NUL-free and ends at its terminator |
| CStrings.StrLen | src/misc.c:64 | the strlen scan returns the index of the terminating NUL, which is the length of the content |
| CStrings.IndexOf | src/definition.c:221-223 | strchr finds the first occurrence, with none before it; None exactly when the character is absent |
| CStrings.Find | src/definition.c:502 | strstr finds the first position where the pattern occurs; None means it occurs nowhere |
| CStrings.TokenEnd | src/definition.c:736 | a strtok token runs up to the first delimiter and contains none; the scan resumes just after that delimiter |
| CStrings.Strtok | src/definition.c:232-233 | strtok returns NULL exactly when only delimiters remain; otherwise a non-empty, delimiter-free token and a strictly shorter rest |
| CStrings.Tokens | src/definition.c:736-782 | every token of the strtok loop is non-empty |
| CStrings.TokenEndSplit | src/definition.c:232-233 | for a word, a delimiter and a rest, the word is the token and the rest is what follows |
| CStrings.TokensSplit | src/definition.c:736-782 | a delimiter splits the token stream: the tokens of a, d, b are the tokens of a followed by those of b |
| CStrings.TokensOfWord | src/definition.c:736-782 | a non-empty text with no delimiter is exactly one token |
| CStrings.TokensOfDelimiterFirst | src/definition.c:736-782 | strtok skips leading delimiters |
| Plan.MbinTotalCounts | src/definition.c:354-355 | the MBIN total bounds every input pak's MBIN count, and is 0 exactly when no input pak has an MBIN |
| Plan.MbinTotalAppend | src/definition.c:354-355 | appending an input pak adds its MBIN count to the total |
| Plan.MbinTotalUpdate | src/definition.c:354-355 | replacing one input pak changes the total by the difference of its MBIN list lengths |
| Plan.SearchInputPak | src/definition.c:158-167 | the result is the first input pak whose path equals the argument; None means no entry has that path |
| Plan.SearchMbin | src/definition.c:178-187 | the result is the first MBIN whose name equals the argument; None means no entry has that name |
| Misc.Leading | src/misc.c:67-70 | the maximal run of leading whitespace: all whitespace, followed by a non-space or the end |
| Misc.Trailing | src/misc.c:73-77 | the maximal run of trailing whitespace: all whitespace, preceded by a non-space or the start |
| Misc.Trim | src/misc.c:60-83 | the trimmed text is never longer than the input |
| Misc.TrimNoOuterSpace | src/misc.c:60-83 | trim's result neither starts nor ends with whitespace |
| Misc.TrimSplits | src/misc.c:60-83 | the input is a whitespace run, the trimmed text, then a whitespace run |
| Misc.LeadingIs | src/misc.c:67-70 | the leading run is unique: any all-space prefix followed by a non-space is it |
| Misc.TrailingIs | src/misc.c:73-77 | the trailing run is unique in the same way |
| Misc.TrimUnique | src/misc.c:60-83 | conversely, whitespace, then a text with no outer whitespace, then whitespace, trims to that text |
| Misc.TrimFixed | src/misc.c:60-83 | a text with no outer whitespace is its own trim |
| Misc.TrimEmptyIffAllSpace | src/misc.c:60-83 | trim empties a string if and only if it is all whitespace |
| Misc.TrimIdempotent | src/misc.c:60-83 | trimming twice is trimming once |
| Misc.TrimInPlace | src/misc.c:60-83 | a NULL pointer is left alone; otherwise the buffer afterwards holds the trimmed string |
| Misc.SkipLeadingSpace | src/misc.c:67-70 | the first loop stops at the length of the leading whitespace run |
| Misc.ClearTrailingSpace | src/misc.c:73-77 | the second loop NULs exactly the trailing whitespace run and keeps everything before it |
| Misc.ShiftLeft | src/misc.c:80-82 | the overlapping strcpy moves the trimmed text, with its terminator, to the front |
| FsUtils.ReplaceChar | src/fs_utils.c:133-137 | every occurrence of one character becomes the other; every other character and the length are kept |
| FsUtils.ToUnix | src/fs_utils.c:132-137 | the Unix form has the same length, no backslash, and every other character in place |
| FsUtils.ToDos | src/fs_utils.c:172-177 | the DOS form has the same length, no '/', and every other character in place |
| FsUtils.ToUnixProperties | src/fs_utils.c:133-137 | no backslash survives path_to_unix; each becomes '/', and nothing else moves |
| FsUtils.ToDosProperties | src/fs_utils.c:173-177 | no slash survives path_to_dos; each becomes '\\', and nothing else moves |
| FsUtils.ConversionsIdempotent | src/fs_utils.c:120-180 | converting a path twice is converting it once, in either direction |
| FsUtils.StrChr | src/fs_utils.c:134 | strchr from a position finds the next occurrence before the terminator, or reports that none remains |
| FsUtils.ReplaceInPlace | src/fs_utils.c:133-137 | the strchr loop converts the buffer's string in place and keeps it a C string |
| FsUtils.StrCpy | src/fs_utils.c:129 | strcpy into a distinct, large enough buffer gives it the same string |
| FsUtils.StrDup | src/fs_utils.c:124 | strdup returns a fresh buffer holding the same string |
| FsUtils.ConvertPath | src/fs_utils.c:120-140 | NULL for two NULLs; a fresh converted copy without a buffer; otherwise the buffer, holding the converted path (or its own converted contents when path is NULL or is the buffer) |
| FsUtils.PathToUnix | src/fs_utils.c:120-140 | path_to_unix returns, in each of the four NULL/buffer cases, the Unix form of the path as that case says |
| FsUtils.PathToDos | src/fs_utils.c:160-180 | path_to_dos does the same for the DOS form |
| Exml.ExmlName | src/definition.c:499-506 | the all-occurrences rewrite keeps the length of the name; ExmlNoMbin and ExmlIdempotent state the rest |
| Exml.FindFrom | src/definition.c:505 | strstr from a position finds the first ".MBIN" at or after it, or reports that none remains |
| Exml.StrStr | src/definition.c:502-505 | the scan on the name buffer returns exactly that first occurrence |
| Exml.ExmlInPlace | src/definition.c:501-506 | the strstr/memcpy loop leaves the buffer holding the name with every ".MBIN" rewritten, left to right |
| Exml.WriteExt | src/definition.c:504 | memcpy writes ".EXML" over five characters and changes nothing else |
| Exml.ExmlStep | src/definition.c:503-506 | one pass rewrites the first match and the search resumes right after it without losing the remaining rewrite |
| Exml.ExmlWithout | src/definition.c:502 | a name with no ".MBIN" is left unchanged |
| Exml.ExmlAtFirst | src/definition.c:503-506 | at the first occurrence the rewrite writes ".EXML" and continues after it |
| Exml.ExmlNoMbin | src/definition.c:499-506 | no ".MBIN" remains anywhere in the rewritten name |
| Exml.ExmlIdempotent | src/definition.c:499-506 | rewriting twice is rewriting once |
| Exml.ExmlFileName | src/definition.c:598-600 | the single-occurrence form keeps a name without ".MBIN" and otherwise cuts it at the first ".MBIN", appending ".EXML" |
| Exml.FormsAgreeOnSuffix | src/definition.c:911-913 | for a name whose only ".MBIN" ends it, both rewrites give the same file name |
| Exml.FormsDiffer | src/definition.c:911-913 | for any name with text after its first ".MBIN", the single form is strictly shorter than the all-occurrences form, so the two differ |
| Exml.FormsDifferExample | src/definition.c:598-600 | "a.MBIN.x" becomes "a.EXML.x" in the all-occurrences form and "a.EXML" in the single form |
| MbinList.EntryName | src/definition.c:499-509 | an entry has the length of its MBIN name, and in EXML mode holds no ".MBIN" |
| MbinList.Names | src/definition.c:458-463 | one name per MBIN entry |
| MbinList.AllNames | src/definition.c:494-516 | as many names as MBIN entries under the input paks |
| MbinList.ExmlCopy | src/definition.c:501-506 | strdup plus the rewrite loop yields the EXML name |
| MbinList.ArgList.constructor | src/definition.c:446 | the argument vector starts with the entries the caller passes in |
| MbinList.ArgList.GetMbinList | src/definition.c:446-467 | nothing is appended when mbinCount is 0; otherwise every MBIN name, in list order, after the existing entries |
| MbinList.ArgList.GetCompleteMbinList | src/definition.c:483-521 | nothing is appended when totalMbinCount is 0; otherwise the names of every MBIN of every input pak, rewritten in EXML mode |
| MbinList.ArgList.AppendAllNames | src/definition.c:494-516 | the nested walk appends exactly AllNames |
| MbinList.ArgList.AppendNames | src/definition.c:496-514 | the inner walk appends one name per MBIN, in order |
| MbinList.NamesInOrder | src/definition.c:458-463 | entry i of the list is the name of MBIN i |
| MbinList.MbinListExact | src/definition.c:448-451 | with the counter in step, the early return is the empty append and the realloc size is exactly the number of appended names plus the terminator |
| MbinList.CompleteListExact | src/definition.c:484-487 | the same for totalMbinCount over the whole output pak |
| MbinList.AllNamesAppend | src/definition.c:494-516 | the list follows the input pak order: joining two input pak lists joins their names |
| MbinList.ExmlListIsRewrite | src/definition.c:499-509 | in EXML mode each entry is the EXML name of the entry in the same place without it |
| MbinList.ExmlListHasNoMbin | src/definition.c:499-506 | the list MBINCompiler receives in EXML mode names no ".MBIN" file |
| MbinList.AllNamesMembers | src/definition.c:494-516 | a name is in the list if and only if some MBIN of some input pak contributes it |
| Parser.CutAt | src/definition.c:221-223 | the cut text is a prefix without the character, and it stops exactly at its first occurrence |
| Parser.CleanLine | src/definition.c:219-228 | the line the dispatch sees has no '#', no NUL and no whitespace at either end |
| Parser.Classify | src/definition.c:231-390 | a line is a directive only when it starts with that directive's word, and is an assignment exactly when it starts with none of them |
| Parser.Argument | src/definition.c:242-244 | a present argument has no outer whitespace and no line end, and a line of blanks has no argument |
| Parser.Present | src/definition.c:403 | an empty side is absent, and only an empty side is |
| Parser.SplitAssignment | src/definition.c:397-406 | each present side is non-empty and trimmed; a line without '=' has no value |
| Parser.OpenOutputPak | src/definition.c:247-260 | !outputPakFile keeps the parser invariant (cursors in range, counters equal to lengths, unique entries) |
| Parser.AddExtraFile | src/definition.c:280-284 | !addFile keeps the parser invariant |
| Parser.OpenInputPak | src/definition.c:297-319 | !inputPakFile keeps the parser invariant |
| Parser.OpenMbin | src/definition.c:332-357 | !mbinFile keeps the parser invariant, counters included |
| Parser.OpenModification | src/definition.c:371-386 | cd keeps the parser invariant |
| Parser.AddValue | src/definition.c:410-424 | an assignment keeps the parser invariant |
| Parser.ParseLine | src/definition.c:219-426 | one line keeps the invariant, never changes an earlier output pak, and returns a list inside the arena |
| Parser.IncludeLine | src/definition.c:231-239 | !include never returns NULL to the caller, keeps the invariant and changes no earlier output pak |
| Parser.ApplyDirective | src/definition.c:241-426 | the other directives keep the invariant and leave the list head where it was |
| Parser.ParseLines | src/definition.c:219-427 | a run of lines keeps the invariant and never changes an earlier output pak |
| Parser.ParseFile | src/definition.c:211-431 | parse_definition keeps the invariant and never changes an earlier output pak |
| Parser.ParseDefinitionFile | src/definition.c:211-431 | a parse from the initial cursors yields a well-formed plan |
| Parser.DefinitionParser.constructor | src/definition.c:65-69 | every static cursor starts NULL |
| Parser.DefinitionParser.ParseDefinition | src/definition.c:211-431 | the read loop's new cursors and return value are those ParseFile gives |
| Parser.DefinitionParser.ProcessLine | src/definition.c:220-426 | one loop body, as ParseLine says |
| Parser.DefinitionParser.IncludeFile | src/definition.c:231-239 | the recursive call, as IncludeLine says |
| Parser.DefinitionParser.Apply | src/definition.c:241-426 | the other directives, as ApplyDirective says |
| Parser.DefinitionParser.NewOutputPak | src/definition.c:247-260 | updates the cursors as OpenOutputPak says |
| Parser.DefinitionParser.PushExtraFile | src/definition.c:280-284 | updates the cursors as AddExtraFile says |
| Parser.DefinitionParser.SelectInputPak | src/definition.c:297-319 | updates the cursors as OpenInputPak says |
| Parser.DefinitionParser.SelectMbin | src/definition.c:332-357 | updates the cursors as OpenMbin says |
| Parser.DefinitionParser.PushModification | src/definition.c:371-386 | updates the cursors as OpenModification says |
| Parser.DefinitionParser.PushValue | src/definition.c:410-424 | updates the cursors as AddValue says |
| ParserRules.CleanLineShape | src/definition.c:221-228 | the text the parser classifies has no '#', no NUL and no outer whitespace |
| ParserRules.BlankLineSkipped | src/definition.c:226-228 | a blank line, or a line that is blank up to its '#', changes nothing |
| ParserRules.CdByPrefix | src/definition.c:361 | directives are recognised by prefix: any line starting with "cd" is a cd line |
| ParserRules.ArgumentAfterWord | src/definition.c:366-368 | the directive word, a blank and a clean argument give back exactly that argument |
| ParserRules.NoArgumentNoEffect | src/definition.c:241-388 | a directive whose scope is open but which has no argument changes nothing |
| ParserRules.OrderingError | src/definition.c:265-394 | a line returns NULL if and only if it needs a scope that is not open; the error names the directive and the state is left as it was |
| ParserRules.ParseLinesAppend | src/definition.c:219-427 | parsing a + b is parsing a, then b from where a stopped, unless a returned NULL |
| ParserRules.AbortSkipsRest | src/definition.c:391-394 | after a line that returns NULL, no later line is looked at |
| ParserRules.OutputPakLine | src/definition.c:241-262 | !outputPakFile P appends one empty pak named P to the list and clears every other cursor |
| ParserRules.AddFileLine | src/definition.c:264-286 | !addFile F puts F in front of the current pak's extra files and grows their count by one; the new state is the old one with only that pak's two extra-file fields replaced, so its name, input paks, MBIN total, the other paks and the cursors are kept |
| ParserRules.InputPakLine | src/definition.c:288-321 | !inputPakFile P reuses the entry for P, leaving every pak as it was, or appends exactly one empty entry to the current pak, leaving its name, extra files, MBIN total and the other paks as they were; P is then current and unique, and the MBIN and modification cursors are cleared |
| ParserRules.OpenInputPakEffect | src/definition.c:297-319 | the same state change on its own, with the whole new arena: unchanged on reuse, and otherwise the current pak with one entry appended to its input paks |
| ParserRules.MbinLine | src/definition.c:323-359 | !mbinFile M reuses the entry for M, leaving every pak as it was and resuming its last modification; or appends M to the current input pak, growing its mbinCount and the pak's totalMbinCount by one, with every other pak, input pak and field as it was |
| ParserRules.CdLine | src/definition.c:361-388 | cd S appends one modification holding the raw S to the current MBIN and makes it current; the new state differs from the old only in that MBIN's modification list, so the paks, input paks, other MBINs, counters and cursors are kept |
| ParserRules.AssignmentLine | src/definition.c:390-426 | an assignment appends the split pair to the last modification's values and changes nothing else in the plan, or changes nothing at all when both sides are empty |
| ParserRules.AssignmentRoundTrip | src/definition.c:397-406 | `name=value` with trimmed, '='-free name splits back into name and value, an empty side absent |
| ParserRules.SplitAtFirstEquals | src/definition.c:398-401 | only the first '=' splits; the rest, '=' included, is the value |
| ParserRules.IncludeLineRule | src/definition.c:231-239 | the caller continues with the cursors the include left, whether it succeeded or not; a failed include makes the caller's list NULL |
| ParserRules.MissingIncludeDropsList | src/definition.c:211-239 | an include file that cannot be opened changes no cursor and empties the caller's list |
| ParserRules.MissingIncludeFile | src/definition.c:212-216 | the same, stated on the include line itself |
| ParserRules.IncludeAsInline | src/definition.c:237 | a successful include is the same as writing the file's lines in place of the !include line |
| ParserRules.CountersMatchLengths | src/definition.c:241-426 | after any parse, extraFileCount, mbinCount and totalMbinCount equal the lengths they count, and input paks and MBINs are unique by name |
| XPath.Step | src/definition.c:739-777 | a successful step is non-empty, and a step can fail only for a token holding both '=' and '[' |
| XPath.NameStep | src/definition.c:773-777 | a bare token becomes Property[@name='...'] with the token verbatim between the quotes |
| XPath.PairStep | src/definition.c:743-772 | a pair step fails only when '[' comes right before the first '=', and is the missing-bracket error exactly when no ']' follows that '=' |
| XPath.ValueStep | src/definition.c:751-768 | the step is a Property test that ends with the value between quotes and then `']` |
| XPath.JoinSteps | src/definition.c:738-781 | the join succeeds exactly when every token's step does, and is empty exactly when there is no token |
| XPath.Base | src/definition.c:724-732 | an absolute selector starts from /Data, a relative one keeps the buffer, and the base is empty, /Data or ends in '/' |
| XPath.Translate | src/definition.c:718-783 | a NULL selector clears the buffer; a successful translation starts with /Data when absolute and with the old buffer when relative |
| XPath.XPathBuffer.constructor | src/definition.c:63 | the buffer starts empty |
| XPath.XPathBuffer.SetXPath | src/definition.c:718-783 | set_xpath fails exactly when Translate does, with the same error; on success the buffer becomes Translate's result |
| XPath.XPathBuffer.AppendSteps | src/definition.c:734-782 | the strtok loop appends the steps of all tokens joined by '/', or stops at the first token in error |
| XPath.JoinStepsCons | src/definition.c:737-782 | one loop step moves the first token's step, with a '/' when more follow, into the buffer |
| XPathRules.NullClears | src/definition.c:719-722 | a NULL selector empties the buffer |
| XPathRules.AbsoluteIgnoresBuffer | src/definition.c:725-728 | an absolute selector does not depend on the old buffer and starts with /Data |
| XPathRules.RelativeExtendsBuffer | src/definition.c:729-732 | a relative selector extends a non-empty buffer by '/' and its own translation |
| XPathRules.StepNonEmpty | src/definition.c:739-777 | every step is non-empty text |
| XPathRules.JoinStepsAppend | src/definition.c:779-781 | joining two token lists puts exactly one '/' between their steps |
| XPathRules.CdComposes | src/definition.c:729-782 | `cd a` followed by `cd b` reaches the same XPath as `cd a/b` (the buffer is a working directory) |
| XPathRules.CdTwice | src/definition.c:729-782 | `cd a` then `cd b` appends '/' and b's steps to what `cd a` reached |
| XPathRules.CdOnce | src/definition.c:729-782 | `cd a/b` gives a's base, a's steps, '/', and b's steps |
| XPathRules.TranslateOk | src/definition.c:725-782 | a selector whose steps translate gives its base followed by the joined steps |
| XPathRules.EmptySegmentsCollapse | src/definition.c:736 | strtok collapses empty segments: `a//b` selects the same as `a/b` |
| XPathRules.StarToken | src/definition.c:739-740 | any token starting with '*' is the wildcard step |
| XPathRules.ParentToken | src/definition.c:741-742 | `..` is the parent step |
| XPathRules.NameToken | src/definition.c:773-777 | a bare name is a Property test on its name attribute |
| XPathRules.PairToken | src/definition.c:743-768 | `n=v` tests both the name and value attributes; the value is everything after the first '=' |
| XPathRules.ValueOnlyToken | src/definition.c:752-756 | `=v` drops the name test |
| XPathRules.BracketToken | src/definition.c:745-768 | `n[=v]` is the bracketed form of `n=v` |
| XPathRules.MissingBracketToken | src/definition.c:758-763 | `n[=v` without a ']' is the fatal missing-bracket error |
| XPathRules.DataAfterBracketToken | src/definition.c:769-772 | text after the ']' is the fatal extra-data error |
| XPathRules.OpenBracketAfterEqualsIsValue | src/definition.c:745 | a '[' after the '=' is part of the value, not the bracket form |
| XPathRules.NameTestStar | src/definition.c:752 | the '*' test on a pair's name can never fail once the token passed the earlier '*' test |
| XPathRules.FirstOccurrence | src/definition.c:743-759 | strstr(token, "=") and strchr(value, ']') find the character right after a prefix that does not contain it |
| Upsert.Key | src/definition.c:816-822 | the compared attribute is "name" exactly when a name is given, and "value" otherwise |
| Upsert.Want | src/definition.c:816-822 | the searched text is the name when one is given, and the value otherwise |
| Upsert.NewProperty | src/definition.c:849-856 | the created element is a childless Property carrying a name or value attribute exactly for the parts given, so it matches the search |
| Upsert.FirstMatch | src/definition.c:828-848 | the first child whose key attribute equals the wanted text, with no match before it; None exactly when no child matches |
| Upsert.UpsertAt | src/definition.c:824-858 | the upsert under one node keeps the document well formed and removes no element |
| Upsert.UpsertAll | src/definition.c:824-858 | the same over the whole node set |
| Upsert.SetItemSpec | src/definition.c:795-866 | set_item keeps the document well formed |
| Upsert.Document.constructor | src/definition.c:894 | the global doc holds the MBIN's document |
| Upsert.Document.SetItem | src/definition.c:795-866 | the loops over the node set leave the document as SetItemSpec says |
| Upsert.Document.UpsertNode | src/definition.c:825-857 | the child scan updates the first match or appends one new Property, as UpsertAt says |
| UpsertRules.NothingToSet | src/definition.c:796-797 | with neither name nor value the document is unchanged |
| UpsertRules.XPathNotFound | src/definition.c:860-862 | when the XPath cannot be evaluated the document is unchanged |
| UpsertRules.UpsertUpdatesFirstMatch | src/definition.c:832-843 | exactly the first matching child changes: its value attribute becomes the value (empty when absent) |
| UpsertRules.UpsertAppendsProperty | src/definition.c:849-857 | without a match, exactly one new childless Property element is appended last, with a name and a value attribute exactly when given |
| UpsertRules.FirstMatchAgree | src/definition.c:828-848 | the first match depends only on which children match |
| UpsertRules.UpsertEstablishes | src/definition.c:824-858 | afterwards the node has a matching child, and it carries the value when one is given |
| UpsertRules.UpsertPreserves | src/definition.c:824-858 | an upsert under any node keeps every other node's match and value |
| UpsertRules.UpsertOnSatisfied | src/definition.c:832-843 | upserting a pair a node already carries changes nothing |
| UpsertRules.UpsertOnFound | src/definition.c:832-843 | upserting under a node that already has a match creates no element |
| UpsertRules.UpsertAllPreserves | src/definition.c:824-858 | the whole node-set loop keeps any node's match and value |
| UpsertRules.SetItemEstablishes | src/definition.c:795-866 | after set_item every matched node has a matching child that carries the value when one is given |
| UpsertRules.UpsertAllOnSatisfied | src/definition.c:824-858 | on nodes that all carry the pair the loop changes nothing |
| UpsertRules.UpsertAllOnFound | src/definition.c:824-858 | on nodes that all have a match the loop creates no element |
| UpsertRules.SetItemIdempotent | src/definition.c:795-866 | with a value given, applying set_item a second time changes nothing |
| UpsertRules.SetItemReplayAddsNoNode | src/definition.c:795-866 | applying set_item a second time never adds an element, even without a value |
| Replay.ApplyPairs | src/definition.c:901-906 | the set_item loop keeps the document well formed |
| Replay.ApplyMods | src/definition.c:893-908 | the modification loop keeps the document well formed when it does not exit |
| Replay.ReplayMbin | src/definition.c:893-915 | one MBIN moves the plan index by one, or stops only on set_xpath's exit |
| Replay.ReplayMbins | src/definition.c:890-916 | the MBIN loop advances by the number of MBINs, or stops only on set_xpath's exit |
| Replay.ReplayInputs | src/definition.c:884-918 | the input pak loop advances by the input paks' MBIN total unless it stops |
| Replay.ReplayPaks | src/definition.c:881-924 | the output pak loop advances by the plan's MBIN total unless it stops |
| Replay.Process | src/definition.c:879-926 | a replay that does not stop visits every MBIN document |
| Replay.Status | src/definition.c:873 | the status is 0 or 1, and 0 exactly when the replay did not stop |
| Replay.Models | src/definition.c:894 | the documents' contents, one per MBIN |
| Replay.ProcessDefinitions | src/definition.c:879-926 | the loop stops exactly as Process does; unless set_xpath exited, the buffer and every document end as Process says |
| Replay.ReplayInputsInPlace | src/definition.c:884-918 | the input pak loop, in place, as ReplayInputs says |
| Replay.ReplayMbinsInPlace | src/definition.c:890-916 | the MBIN loop, in place, as ReplayMbins says |
| Replay.ReplayMbinInPlace | src/definition.c:893-908 | one MBIN: only its own document changes, as ReplayMbin says |
| Replay.ReplayModsInPlace | src/definition.c:896-908 | the modification loop fails exactly when ApplyMods does, and otherwise leaves the buffer and document ApplyMods gives |
| Replay.SetItems | src/definition.c:901-906 | the pair loop leaves the document ApplyPairs gives |
| ReplayRules.ApplyModsAppend | src/definition.c:896-908 | replaying a + b is replaying a, then b from the buffer and document a left |
| ReplayRules.AbsoluteFirstForgets | src/definition.c:898 | a modification list that starts with an absolute cd does not depend on the buffer it finds |
| ReplayRules.AbsolutePlainSelector | src/definition.c:725-728 | `cd /a` from any buffer gives /Data/ and a's name step |
| ReplayRules.RelativePlainSelector | src/definition.c:729-732 | `cd b` from a non-empty buffer appends '/' and b's name step |
| ReplayRules.RelativeCdContinuesAcrossMbins | src/definition.c:891-898 | the buffer is never reset: a relative cd in the next MBIN continues from the previous MBIN's selector |
| ReplayRules.OneSelectorMbin | src/definition.c:896-908 | an MBIN whose only modification is a cd without pairs moves the buffer and keeps the document |
| ReplayRules.MbinsTouchOwnDocs | src/definition.c:890-916 | the MBIN loop changes only the documents of its own MBINs |
| ReplayRules.InputsTouchOwnDocs | src/definition.c:884-918 | the input pak loop changes only its own input paks' documents |
| ReplayRules.PaksTouchOwnDocs | src/definition.c:881-924 | the output pak loop changes only documents of the plan |
| ReplayRules.NoModificationsNoChange | src/definition.c:893-896 | an MBIN without modifications keeps its document and the buffer |
| ReplayRules.ExtractFailureFails | src/definition.c:887 | an input pak that cannot be extracted makes the input pak loop stop |
| ReplayRules.PakFailureFails | src/definition.c:921 | any pak that cannot be saved, or any input pak that cannot be extracted, makes the replay stop |
| ReplayRules.AllExtractedOnlyExit | src/definition.c:887 | when every input pak extracts, only set_xpath's exit can stop the input pak loop |
| ReplayRules.AllSavedOnlyExit | src/definition.c:921 | when every extraction and every save succeeds, only set_xpath's exit can stop the replay |
| ReplayRules.ProcessStatus | src/definition.c:873-925 | the status is 1 when some extraction or save fails, and 0 when none fails and set_xpath did not exit |
| ReplayRules.FirstExtractFailureChangesNothing | src/definition.c:887 | when the first input pak cannot be extracted nothing is replayed: same buffer, same documents |

## Left out

- The 256-byte line buffer of parse_definition (src/definition.c:218): a longer line is split by `fgets` into several lines; the model reads whole lines.
- The 32768-byte xpath buffer (src/definition.c:63) and the MAX_PATH file name buffers: the model's strings are unbounded, so an overflow is not modelled.
- Allocation failures (`malloc`, `strdup`, `realloc` returning NULL) and the error returns they lead to, including `free(*list)` at src/definition.c:453 and :489, which frees the first string rather than the list.
- File I/O: a file system is a map from path to lines, and a file that cannot be opened is one missing from the map. `fclose`, `fprintf` and `printf` output are left out.
- !include recursion depth: the model carries a depth bound. The model treats an include below it like a file that cannot be opened. The C recursion is unbounded, and an include cycle overflows its stack.
- get_input_files, save_pak, spawn, psar and MBINCompiler: extraction and saving are Boolean oracles (`extractOk`, `saveOk`) in the replay. Their internals and the temporary directory are not modelled.
- xmlReadFile and the documents it yields: the replay takes one well-formed document per MBIN as input. A NULL document from a failed read is not modelled.
- xmlSaveFormatFile and the output file name built at src/definition.c:910-914: the replay does not model saving the documents. `Exml.ExmlFileName` models the name rewrite itself.
- libxml2 XPath evaluation: an `Evaluator` parameter maps a document and an expression to a node set, or to None when evaluation fails.
- xmlXPathNewContext failure (src/definition.c:801-805), where the C frees the document: not modelled.
- The libxml2 tree is reduced to elements with attributes and child elements. Text nodes, attribute order and namespaces are not modelled. Setting an attribute's content (xmlNodeSetContent) and creating it (xmlNewProp) are the same map update.
- Replay.ProcessDefinitions: on set_xpath's `exit(EXIT_FAILURE)` the model returns the error instead of ending the process, and it states nothing about the buffer or the documents after it.
- XPath.XPathBuffer.SetXPath: after a selector error the buffer is left unspecified, because the C exits. The partly written buffer is not modelled.
- set_xpath writes into the modification's selector in place (`strtok`, `p[-1] = '\0'`). Each selector is used once, so the model keeps it unchanged.
- definition_cleanup and main: freeing the plan and the command line are not part of the core modelled here.
- Names are modelled without their NUL terminators. isspace is the C locale's. Characters are Dafny `char`, not signed bytes.
- Misc.ShiftLeft models `strcpy(str, &str[start])` as a forward copy. The C standard leaves an overlapping strcpy undefined.
