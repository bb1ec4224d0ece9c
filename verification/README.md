# headerfix, modelled in Dafny

headerfix keeps the boilerplate at the top of C, C++, Objective-C and
Python sources in order: the copyright notice with its years and authors,
and the include guard of a C header. It walks a source tree, decides for
each directory and file whether it is visited and with which settings, and
rewrites the leading comment and the guard of each file it visits.

This project models the decision and text-transformation core of that
program and proves properties of the model:

- **Path patterns** (`Glob`, `Pattern`, `Legacy`): gitignore-style glob
  patterns, matched one directory at a time with a verdict and a narrowed
  pattern set, and files matched with last-match-wins polarity; plus the
  older pattern filter of the single-file tool `header.py`. `PatternTable`
  works out the self-test of header/pattern.py: the verdicts of its eleven
  patterns on its thirty-one paths.
- **Rules** (`Environ`, `Rule`, `RuleReader`, `Scan`): the typed settings,
  the rule-file lexer and parser (with heredocs) and what the parser does
  with each kind of line, the rule tree's `file_env`, `dir_rules`
  and `union`, rules built from ignore files, and the directory walk over an
  in-memory tree with its include and exclude filters.
- **Text helpers** (`Text`, `Years`, `Ranges`, `Copyright`, `Comment`,
  `FileTypes`, `SourceFiles`, `Directives`, `Settings`): year lists and
  their notation, the copyright authorship table, leading-comment
  extraction, the file-type table, the line buffer with its wrap and filter
  passes, the directive scan and the option setters of `header.py`. `YearsTable` works out the four
  checks at the foot of lib/header/year.py.
- **Stand-alone scripts** (`FixHeader`, `SHeader`): header and guard
  detection and rewriting in the two older scripts, with proofs that what
  one writes the other reads back.

Operations that work by updating state are methods, proved against
specification functions. Examples are the lexer's line counter, the loops
that gather settings and children, the line buffer, the authorship table,
the file-type registry and the handler cache. The properties are proved
about those functions as lemmas. Pure code is modelled as functions and
datatypes. File contents, directory listings and the results of unseen
library calls are parameters.

## Model

| member | source | states |
|---|---|---|
| Text.Strip | fixheader.py:102 | `str.strip()`: empty exactly for blank text, otherwise starting and ending with a non-space |
| Text.StripPadded | fixheader.py:102 | whitespace around a text does not change what `strip()` leaves |
| Text.Split | fixheader.py:264 | `str.split(c)`: at least one piece, no piece holds `c` |
| Text.SplitJoin | fixheader.py:264 | splitting a join of separator-free pieces gives the pieces back |
| Text.JoinSplitReplace | sheader.py:76 | `'_'.join(s.split('/'))` replaces every `/` by `_` |
| Text.ParseIntRoundTrip | fixheader.py:267-268 | `int(str(i)) == i` |
| Years.Matches | lib/header/year.py:8 | the maximal digit runs, left to right, each with the digit-free text before it |
| Years.MatchesSpell | lib/header/year.py:8 | the matches and the digit-free tail spell the whole input |
| Years.MatchesFront | lib/header/year.py:19 | a digit run after a non-digit separator is the first match, the rest is matched on |
| Years.MatchesSpelled | lib/header/year.py:19 | `finditer` finds again the matches a text was spelled from, when the digit runs are separated by non-empty digit-free text |
| Years.Between | lib/header/year.py:34 | `range(a + 1, b + 1)`: exactly the years after `a` up to `b` |
| Years.Complete | lib/header/year.py:22-29 | a one- or two-digit year borrows the previous year's leading digits; three digits, or no previous year, is an error; every accepted year lies in 1900..3000 |
| Years.ParseYears | lib/header/year.py:10-42 | the loop over the matches computes the specification `Parsed` |
| Years.AbsorbMatch | lib/header/year.py:20-41 | one loop step: the range, single-year and error cases of the loop body |
| Years.CompleteYear | lib/header/year.py:22-29 | the year-completion step as the loop runs it equals `Complete` |
| Years.AbsorbInRange | lib/header/year.py:28-34 | every year the loop adds lies in 1900..3000 |
| Years.YearsInRange | lib/header/year.py:10-42 | every year of a successful parse lies in 1900..3000 |
| Years.Sorted | lib/header/year.py:50-51 | `list(yearset)` sorted: ascending, and the same multiset of years |
| Years.AscendingUnique | lib/header/year.py:51 | the sorted order is unique: two ascending lists with the same elements are equal |
| Years.SortedIncreasing | lib/header/year.py:50-51 | a list drawn from a set sorts into a strictly increasing list |
| Years.FormatYears | lib/header/year.py:44-72 | the two loops compute the specification `Formatted` of the year list |
| Years.CollectRuns | lib/header/year.py:52-65 | the first loop yields the runs of consecutive years, computed by `RunsFrom` |
| Years.WriteRuns | lib/header/year.py:66-71 | the second loop writes each run as `first-last`, or the year alone |
| Years.ShowRuns | lib/header/year.py:66-71 | one text per run, in order |
| Years.RunsCover | lib/header/year.py:52-65 | together the runs cover exactly the years of the list |
| Years.RunsBounded | lib/header/year.py:52-65 | each run starts no earlier than where it opened and ends at a year of the list |
| Years.RunsSeparated | lib/header/year.py:58-63 | on a list without repeats the runs are maximal: no two are adjacent or overlapping |
| Years.FormatRuns | lib/header/year.py:50-65 | the runs of a set's years are separated, ordered, non-empty and cover exactly the set |
| Years.FormatOrderFree | lib/header/year.py:50-51 | the output depends on the set only, not on the order `list(yearset)` gives |
| Years.WrittenMatches | lib/header/year.py:8 | the digit runs of the formatted text are exactly the runs' first and last years with their separators |
| Years.MatchesRange | lib/header/year.py:69 | a written range `a-b` gives two matches, the second after `-` |
| Years.ShownYear | lib/header/year.py:22-29 | a year in 1900..3000 written in full reads back as itself |
| Years.ExpectedAbsorb | lib/header/year.py:19-41 | the loop over the matches of the formatted text collects exactly the runs' years |
| Years.AbsorbRun | lib/header/year.py:30-41 | the matches of one run add its years to the set |
| Years.AbsorbYear | lib/header/year.py:39-41 | a full year after a separator without `-` is added and remembered |
| Years.AbsorbRange | lib/header/year.py:30-38 | a full year after `-` adds the range the previous year opened and forgets it |
| Years.AbsorbCons | lib/header/year.py:19 | a match absorbed without error hands its state on to the rest of the loop |
| Years.FormatParses | lib/header/year.py:10-72 | round trip: parsing what `format_years` writes for years in 1900..3000 gives back the set |
| YearsTable.SelfTestSingle | lib/header/year.py:85 | `'1999'` parses to `{1999}`, and every listing of that set formats as `'1999'` |
| YearsTable.SelfTestAbbreviated | lib/header/year.py:86 | `'2000, 1, 2'` parses to `{2000, 2001, 2002}`, and every listing of that set formats as `'2000-2002'` |
| YearsTable.SelfTestRange | lib/header/year.py:87 | `'2000-10'` parses to the years 2000 to 2010, and every listing of that set formats as `'2000-2010'` |
| YearsTable.SelfTestTwoRuns | lib/header/year.py:88 | `'1999, 2000, 2001, 2008-2009'` parses to those five years, and every listing of that set formats as `'1999-2001, 2008-2009'` |
| Ranges.DashTest | fixheader.py:265 | `'-' in item` holds exactly when splitting the item at dashes gives more than one piece |
| Ranges.ItemRange | fixheader.py:265-269 | an item `a-b` names every year from `a` to `b` inclusive (none when `b < a`) |
| Ranges.ItemRangeRefused | fixheader.py:266-268 | a second dash is a `too many values to unpack` error; a side that is not a number is an `int()` error |
| Ranges.ItemSingle | fixheader.py:270-271 | an item without a dash is one year, or an `int()` error |
| Ranges.CombineFails | fixheader.py:264-272 | the first failing item decides the error, whatever follows it |
| Ranges.CombineUnion | fixheader.py:263-272 | when every item parses, the result is the union of what each item names |
| Ranges.ParseYears | fixheader.py:262-272 | the loop over the comma-separated items computes `RangeYears`, stopping at the first error; `parseDates` in sheader.py is the same loop |
| Ranges.ReadItem | fixheader.py:265-271 | one loop step, with the literal `'-' in item` test, equals `ItemYears` |
| Ranges.RangeTextRuns | fixheader.py:277-292 | the written runs are ordered, maximal and cover exactly the years; the text does not depend on the set's iteration order |
| Ranges.SortedSame | fixheader.py:279 | two duplicate-free lists with the same elements sort alike |
| Ranges.ParsePadded | fixheader.py:267-268 | spaces around a number do not change what `int()` reads |
| Ranges.SpanReadsBack | fixheader.py:288-291 | a written run, with or without its leading space, reads back as exactly the years it spans |
| Ranges.SpanNoComma | fixheader.py:288-291 | a written run holds no comma |
| Ranges.RangeParts | fixheader.py:289 | a written run `a - b` is an item `x-y` with `x` reading as `a` and `y` as `b` |
| Ranges.CombineWritten | fixheader.py:263-272 | the items of a written text combine to exactly the years its runs cover |
| Ranges.RangeRoundTrip | fixheader.py:262-292 | round trip: parsing the formatted non-negative years gives them back; the empty set is written as text that fails to parse |
| Ranges.RunsOfNaturals | fixheader.py:278-285 | the runs of non-negative years are forwards, non-negative, empty only for no years, and cover the years |
| Ranges.FormatYears | fixheader.py:277-292 | the result is the written runs of the sorted years and, for a non-empty set of non-negative years, parses back to that set; `formatDates` in sheader.py is the same code |
| Ranges.CollectSpans | fixheader.py:278-285 | the pop-and-append loop yields the runs of consecutive years, as `RunsFrom` computes them |
| Ranges.WriteSpans | fixheader.py:286-291 | each run written as `a - b` when it spans several years, otherwise alone |
| Copyright.Normalize | lib/header/copyright.py:22-24 | the stored name is stripped and ends with a full stop |
| Copyright.NormalizeIdempotent | lib/header/copyright.py:22-24 | normalising a normalised name changes nothing |
| Copyright.Added | lib/header/copyright.py:20-30 | `add_author`: the table gains the normalised author, whose years grow by the given ones; every other entry is unchanged |
| Copyright.Grouped | lib/header/copyright.py:37-44 | the grouping loop's state: an open group is always the last group |
| Copyright.GroupedShape | lib/header/copyright.py:37-44 | every group is well formed, one group per line that mentions `COPYRIGHT` |
| Copyright.StepKeepsShape | lib/header/copyright.py:38-44 | one line of the grouping loop keeps the groups well formed and opens a group exactly on a marked line |
| Copyright.ExtendGroup | lib/header/copyright.py:41-42 | a line joins a group when it starts one or when it is unmarked and the group is still open |
| Copyright.StartsOf | lib/header/copyright.py:38-40 | the lines that open a group, in increasing order: each is marked, and every marked line is among them |
| Copyright.EndOfSpec | lib/header/copyright.py:41-44 | a group takes no later marked line, no line but its last ends it, and it stops short of the input's end only after an ending line or before a marked line |
| Copyright.GroupedSlices | lib/header/copyright.py:37-44 | group `j` is exactly the consecutive lines from the `j`-th marked line up to its end as `EndOfSpec` describes it; the last group is left open exactly when it runs to the end of the input without an ending line |
| Copyright.FirstDigit | lib/header/copyright.py:6 | the first digit of a text that has one |
| Copyright.LastDigitBelow | lib/header/copyright.py:6 | the last digit before a bound, so that `.*` runs to it within the line |
| Copyright.YearsSpan | lib/header/copyright.py:6 | `YEARS.search`: no match exactly when there is no digit; a match runs from the first digit to the last digit on that line |
| Copyright.CollapseSpace | lib/header/copyright.py:8 | `EXTRA_SPACE.sub(' ', s)` is empty exactly when `s` is, is no longer than `s`, and starts with whitespace exactly when `s` does |
| Copyright.CollapseSpaceShape | lib/header/copyright.py:50 | after collapsing, no two whitespace characters are adjacent and the other characters are kept in order |
| Copyright.ReadGroupGrows | lib/header/copyright.py:45-53 | reading a group adds years to one author and leaves the others alone |
| Copyright.ReadGroupNeedsYears | lib/header/copyright.py:47-49 | a group without a digit is the `could not find copyright years` error |
| Copyright.ReadGroupInRange | lib/header/copyright.py:52 | years read from a group lie in 1900..3000 |
| Copyright.ReadGroupsGrows | lib/header/copyright.py:45-53 | reading the groups never removes an author or a year |
| Copyright.ReadGroupsNeedsYears | lib/header/copyright.py:47-49 | a group without a digit stops the reading with that error unless an earlier group already failed |
| Copyright.ReadGroupsInRange | lib/header/copyright.py:45-53 | every year read lies in 1900..3000 |
| Copyright.SortEntries | lib/header/copyright.py:62 | `authors.sort()`: the same entries, ordered by years and then by name |
| Copyright.Notices | lib/header/copyright.py:63-66 | one `Copyright <years> <author>` line per entry, in order |
| Copyright.NoticeLines | lib/header/copyright.py:62-66 | the loop writes `Notices` of the sorted entries |
| Copyright.NamesSpec | lib/header/copyright.py:58-61 | an author is named in the entries exactly when some entry carries that name |
| Copyright.ListOf | lib/header/copyright.py:59 | `list(years)`: each year of the set exactly once |
| Copyright.SortedYears | lib/header/copyright.py:59-60 | the sorted list of the set's years |
| Copyright.Authorship.constructor | lib/header/copyright.py:14-15 | a new table is empty |
| Copyright.Authorship.NonZero | lib/header/copyright.py:17-18 | true exactly when some author is recorded |
| Copyright.Authorship.AddAuthor | lib/header/copyright.py:20-30 | the table becomes `Added(old table, author, years)` |
| Copyright.Authorship.Parse | lib/header/copyright.py:32-53 | the table and error are what reading the groups of the lines gives, starting from the old table |
| Copyright.Authorship.Dump | lib/header/copyright.py:55-67 | one notice per author, from sorted entries that list the table exactly |
| Copyright.Entries | lib/header/copyright.py:57-61 | one entry per author, with that author's sorted years |
| Copyright.SortedListing | lib/header/copyright.py:62 | sorting the entries keeps what they say about the table |
| Comment.Lines | lib/header/comment.py:68-70 | one source line per piece, each the concatenation of its three parts |
| Comment.LinesAppend | lib/header/comment.py:68-70 | the lines of two runs of pieces are the two runs of lines |
| Comment.Trailing | lib/header/comment.py:15-16 | `body` is the text without trailing whitespace and `post` that whitespace; together they rebuild the line |
| Comment.After | lib/header/comment.py:9-12 | the index just past the first marker of a line that opens with it |
| Comment.LinePiece | lib/header/comment.py:9-17 | a line comment line is split after its marker and rebuilt by its piece |
| Comment.LineComment | lib/header/comment.py:7-18 | the leading run of lines that open with the marker, then the rest, which does not start with such a line |
| Comment.LineCommentPieces | lib/header/comment.py:9-17 | every line of a line comment opens with the marker and is split just after its first occurrence |
| Comment.ExtractLeadLineComment | lib/header/comment.py:3-22 | the `while` loop computes `LeadLineComment` |
| Comment.LeadLineCommentShape | lib/header/comment.py:3-22 | None exactly when the first line does not open a comment; otherwise a non-empty comment whose pieces rebuild its lines, then a rest that does not open one |
| Comment.BlockFrom | lib/header/comment.py:39-60 | the pieces from line `i` up to the closing line, one per line spanned, or None when the file ends first or text follows the delimiter |
| Comment.BlockFromLines | lib/header/comment.py:39-60 | the pieces of a block comment rebuild the lines it spans |
| Comment.ExtractLeadBlockComment | lib/header/comment.py:24-60 | the `while True` loop computes `LeadBlockComment` |
| Comment.BlockFromShape | lib/header/comment.py:39-57 | the shape of a block comment: opening piece, middle pieces with empty `pre`, closing piece that starts with the delimiter |
| Comment.LeadBlockCommentShape | lib/header/comment.py:24-60 | None when the first line does not open with `blockstart`; otherwise a comment shaped as `BlockShaped` says |
| Comment.LeadBlockCommentRebuilds | lib/header/comment.py:24-60 | a block comment's pieces followed by the rest rebuild the file |
| Comment.ClosingCheckAsWritten | lib/header/comment.py:55 | the check as written raises exactly when the delimiter ends the line |
| Comment.ClosingAcceptsTrailingText | lib/header/comment.py:55 | as written, `*/ x` is accepted although text follows the delimiter |
| Comment.ClosingRaisesAtEnd | lib/header/comment.py:55 | as written, a delimiter at the very end of the last line raises although the comment is closed |
| Comment.ClosingCheckWeaker | lib/header/comment.py:55 | wherever the check as written does not raise, it accepts every comment the intended check accepts |
| Comment.ExtractLeadComment | lib/header/comment.py:62-86 | the dispatch computes `LeadComment` |
| Comment.LeadCommentRebuilds | lib/header/comment.py:65-73 | the comment's pieces followed by the remainder rebuild the file; no comment means the whole file is the remainder |
| Comment.LeadCommentPrefersLine | lib/header/comment.py:78-85 | a leading line comment is preferred over a block comment |
| Environ.ReadValue | lib/header/environ.py:3-8 | `read` of each type: a value it accepts has that type (`BoolType`, `IntType` within its bounds, `StringType`) |
| Environ.TypeOf | lib/header/environ.py:49-51 | a variable has a type exactly when the table lists its name |
| Environ.TypeOfAt | lib/header/environ.py:37-45 | an entry whose name no earlier entry repeats is the type found for that name |
| Environ.ParseVarIn | lib/header/environ.py:47-61 | `parse_var`: an unknown name is the `unknown variable` error; a value read has the variable's type |
| Environ.DumpVar | lib/header/environ.py:63-73 | `dump_var` fails exactly for an unknown name and otherwise starts with the name |
| Environ.BareName | lib/header/environ.py:52-56 | a bare name selects `True` for a boolean variable and is `missing value` for the others |
| Environ.BoolReadExact | lib/header/environ.py:3-8 | `BoolType.read` accepts exactly `true` and `false` |
| Environ.IntReadBounds | lib/header/environ.py:18-26 | `IntType.read` accepts exactly the integer literals within the bounds |
| Environ.SettingBounds | lib/header/environ.py:41-42 | a parsed `width` is never negative, a parsed `tabsize` lies in 1..8 |
| Environ.ReadWrite | lib/header/environ.py:9-10 | `read` undoes `write` for every value of the type |
| Environ.DumpParse | lib/header/environ.py:47-73 | what `dump_var` writes, `parse_var` reads back as the same value |
| Rule.CopyrightNoticeUnknown | lib/header/environ.py:37-45 | as written, `copyright_notice` has a default but cannot be set: `parse_var` rejects it |
| Rule.ExtraVariablesSettable | lib/header/rule.py:9-16 | with the completed table, `guard_prefix`, `copyright_notice` and `fix_copyright` can be set |
| FileTypes.AddExtsKeeps | lib/header/filetype.py:22-24 | registration never replaces an entry; what it adds is the new type, under one of its extensions |
| FileTypes.AddExtsSucceeds | lib/header/filetype.py:22-23 | registration succeeds exactly when no extension was already taken or is given twice |
| FileTypes.RegisteredKeeps | lib/header/filetype.py:15-25 | `_filetype` keeps the tables consistent and fails on an empty extension list or a block-comment spec that is not two words |
| FileTypes.BlockSpecsKept | lib/header/filetype.py:18-21 | a registered block-comment spec is the two words given |
| FileTypes.Registry.constructor | lib/header/filetype.py:12-13 | both tables start empty |
| FileTypes.Registry.Register | lib/header/filetype.py:15-25 | the tables and error become what `Registered` gives for the old tables |
| FileTypes.Registry.Lookup | lib/header/filetype.py:39-40 | `get_filetype`: an unregistered extension gives `UNKNOWN` |
| FileTypes.LastIndex | lib/header/filetype.py:40 | `rfind`: the last index of the character, or -1 |
| FileTypes.Ext | lib/header/filetype.py:40 | `os.path.splitext(path)[1]`: empty, or a dot and no `/` |
| FileTypes.FiletypeByExt | lib/header/filetype.py:39-40 | the type of a path depends on its extension alone |
| FileTypes.FiletypeListsExt | lib/header/filetype.py:39-40 | an extension found in a consistent table gives a type that lists it |
| FileTypes.UnknownUnlisted | lib/header/filetype.py:27 | `UNKNOWN` is returned exactly for an extension not in the table |
| FileTypes.Standard | lib/header/filetype.py:29-37 | the nine registrations at import time give consistent tables |
| FileTypes.RegisterKept | lib/header/filetype.py:15-25 | one registration keeps the tables consistent and every earlier entry |
| Glob.LiteralMatch | header/pattern.py:31 | a segment without wildcards matches exactly the same name |
| Glob.StarMatchesAll | header/pattern.py:31 | `*` matches every name |
| Glob.StarSuffixMatch | header/pattern.py:31 | `*` followed by a literal suffix matches exactly the names ending in it |
| Pattern.EffLen | header/pattern.py:32-33 | the number of segments that must match, at least one and not counting the directory marker |
| Pattern.MatchDir | header/pattern.py:22-39 | `GlobPattern.match_dir`: a full match needs the first segment to match; a rooted pattern whose first segment fails carries nothing |
| Pattern.Normalize | header/pattern.py:63-68 | the constructor drops leading negative entries: the result is no longer than the input and starts with a positive entry |
| Pattern.NormalizeSuffix | header/pattern.py:65-67 | what the constructor keeps is a suffix of its input |
| Pattern.NormalizeDropsNegatives | header/pattern.py:66 | everything the constructor drops is negative |
| Pattern.NewPatternSet | header/pattern.py:63-68 | the constructor loop computes `Normalize` |
| Pattern.Descend | header/pattern.py:73-88 | `PatternSet.match_dir` as a value: the narrowed set is a valid pattern set |
| Pattern.MatchDirSet | header/pattern.py:73-88 | the loop computes `Descend`: the last matching entry's polarity, and the narrowed set |
| Pattern.MatchFileSet | header/pattern.py:90-96 | the loop computes `FileVerdict`: the polarity of the last entry that matches the file |
| Pattern.Union | header/pattern.py:98-104 | an empty operand is the identity, otherwise the entries are concatenated |
| Pattern.UnionAssociative | header/pattern.py:98-104 | union is associative |
| Pattern.ParseEntry | header/pattern.py:111-118 | one string: a lone `!` is skipped |
| Pattern.ParseEntries | header/pattern.py:107-119 | `PatternSet.parse` fails exactly when some string is empty (the constructor's assert); the patterns it builds are canonical |
| Pattern.ParseSet | header/pattern.py:107-119 | a parsed set fails exactly on an empty string and is otherwise valid |
| Pattern.SignificantLines | header/pattern.py:127-132 | the kept lines are stripped, non-empty and not `#` comments, and no more than the file's lines |
| Pattern.SignificantLinesMembers | header/pattern.py:127-132 | every line of the file that is not empty or a `#` comment once stripped is kept, stripped, and every kept line is a stripped line of the file |
| Pattern.SignificantLinesAppend | header/pattern.py:127-132 | the lines kept from two parts of a file are those kept from each part, in order |
| Pattern.ReadSet | header/pattern.py:121-133 | `PatternSet.read` is the pattern set parsed from exactly the kept lines, and it is valid |
| Pattern.ParseFailsOnlyOnEmpty | header/pattern.py:51-57 | `GlobPattern.parse` fails (the assert) exactly on the empty string |
| Pattern.ParseCanonical | header/pattern.py:51-57 | whatever `parse` builds is canonical: non-empty segments, plus the directory marker for a trailing `/` |
| Pattern.FormatDirMarker | header/pattern.py:46-48 | the text written ends in `/` exactly when the pattern carries the directory marker |
| Pattern.FormatParse | header/pattern.py:46-57 | round trip: `parse(str(p)) == p` for every canonical pattern |
| Pattern.CarriedChar | header/pattern.py:36-38 | the patterns in force after some directories are the pattern itself (unless rooted) and the remainders of partial matches |
| Pattern.FullMatchSound | header/pattern.py:31-34 | a full match reported incrementally is a whole-path match |
| Pattern.FullMatchComplete | header/pattern.py:31-34 | every whole-path directory match is reported incrementally |
| Pattern.FullMatchChar | header/pattern.py:22-39 | incremental and whole-path directory matching agree for one pattern |
| Pattern.FileMatchSound | header/pattern.py:41-44 | a file match reported incrementally is a whole-path match |
| Pattern.FileMatchComplete | header/pattern.py:41-44 | every whole-path file match is reported incrementally |
| Pattern.FileMatchChar | header/pattern.py:41-44 | incremental and whole-path file matching agree for one pattern |
| Pattern.DirVerdictAppend | header/pattern.py:82-87 | later entries take precedence over earlier ones when they match |
| Pattern.FileVerdictAppend | header/pattern.py:93-95 | later entries take precedence over earlier ones when they match the file |
| Pattern.DirVerdictExpand | header/pattern.py:73-88 | the incremental directory verdict equals the whole-path verdict |
| Pattern.FileVerdictExpand | header/pattern.py:90-96 | the incremental file verdict equals the whole-path verdict |
| Pattern.NormalizeInvisible | header/pattern.py:63-68 | the entries the constructor drops never change a verdict |
| Pattern.NegativeExpandStays | header/pattern.py:152-153 | once only negative entries are left, nothing below can be accepted |
| Pattern.NoVerdictBelowEmpty | header/pattern.py:152-153 | once the narrowed set is empty, no directory below and no file is accepted, so stopping early is sound |
| Pattern.SplitPath | header/pattern.py:142-146 | nothing for the empty path, where `parts[-1]` raises; otherwise the path's non-empty, slash-free components, with a non-empty file name exactly when the path does not end in `/` |
| Pattern.SplitJoinedFile | header/pattern.py:142-146 | components joined with `/` split back into those components, the last being the file name |
| Pattern.SplitJoinedDir | header/pattern.py:142-143 | components joined with `/` and ending in `/` split back into those components, all directories |
| Pattern.PathVerdict | header/pattern.py:140-156 | the empty path is the `IndexError`; any other path gets the whole-path reading of its components |
| Pattern.MatchPath | header/pattern.py:140-156 | `match_path` computes `PathVerdict`: the `IndexError` of the empty path, or the whole-path verdict |
| PatternTable.TableParses | header/pattern.py:159-171 | the self-test's eleven patterns parse into a valid set of the expected entries |
| PatternTable.EntryHits | header/pattern.py:159-171 | which directory paths and file paths each of the eleven entries matches |
| PatternTable.FileVerdictOn | header/pattern.py:140-156 | for the self-test's set, a file path is accepted exactly when a leading directory is, or the last matching entry for the file is positive |
| PatternTable.DirVerdictOn | header/pattern.py:140-156 | for the self-test's set, a directory path is accepted exactly when one of its leading directories is |
| PatternTable.SuffixChecks | header/pattern.py:174-180 | `match_path` gives the self-test's verdicts for `fname`, `abc.c`, `abc/def.c`, `abc.yy.c`, `abc/def.yy.c`, `fname/xyz` and `fname/abc.yy.c` |
| PatternTable.RootedChecks | header/pattern.py:182-187 | `match_path` gives the self-test's verdicts for `rooted`, `rooted/x`, `rooted/x/y`, `rooted/x/z`, `rooted/x/file.py` and `rooted/x/y/z` |
| PatternTable.NestedRootedChecks | header/pattern.py:189-194 | `match_path` rejects the same six paths below `a/` |
| PatternTable.SubdirChecks | header/pattern.py:196-198 | `match_path` gives the self-test's verdicts for `subdir`, `subdir/` and `subdir/x` |
| PatternTable.NestedSubdirChecks | header/pattern.py:200-202 | `match_path` gives the self-test's verdicts for `x/subdir`, `x/subdir/` and `x/subdir/x` |
| PatternTable.RootedSubdirChecks | header/pattern.py:204-206 | `match_path` gives the self-test's verdicts for `rooted-subdir`, `rooted-subdir/` and `rooted-subdir/x` |
| PatternTable.NestedRootedSubdirChecks | header/pattern.py:208-210 | `match_path` rejects `x/rooted-subdir`, `x/rooted-subdir/` and `x/rooted-subdir/x` |
| Legacy.PatternDir | header.py:109-114 | `matchdir` of one pattern: raises exactly for an absolute pattern without parts; an absolute pattern is carried with its first part consumed |
| Legacy.AbsPath | header.py:109-114 | an absolute pattern fully matches a path of directories exactly when its parts match the path's first directories one by one |
| Legacy.RelPath | header.py:124-127 | a relative pattern is carried unchanged until some directory matches it, and then fully matches |
| Legacy.MatchDir | header.py:136-149 | `PatternSet.matchdir` computes `SetMatchDir`: the verdict and the carried patterns |
| Legacy.MatchFile | header.py:150-155 | `PatternSet.matchfile` computes `KeepFile` |
| Legacy.KeepDirLast | header.py:139-143 | the directory verdict is that of the last fully matching pattern; with no full match the directory is kept |
| Legacy.KeepFileLast | header.py:152-154 | the file verdict is that of the last matching non-directory pattern; with none the file is kept |
| Legacy.NarrowedAppend | header.py:139-145 | narrowing works entry by entry and keeps the order of the patterns |
| Legacy.RelNarrowed | header.py:124-127 | a matched relative pattern is not carried further; an unmatched one is carried as it is |
| Legacy.ParseEntry | header.py:158-174 | one pattern string: a lone `!` is skipped; the entry is negated exactly when the string starts with `!` |
| Legacy.AddPats | header.py:156-180 | new patterns go after the existing ones; with none, the same set comes back |
| Legacy.ReadPats | header.py:182-196 | `read` adds the parsed significant lines of the file |
| Legacy.CollectPats | header.py:189-193 | the loop keeps each stripped line unless it is blank or a `#` comment |
| Legacy.ParseFormat | header.py:118-131 | round trip: an entry written out (`!`, pattern, trailing `/` for directory patterns) parses back to itself |
| Legacy.ParseShape | header.py:158-174 | parsing an optional `!` and a body gives the entry of that body |
| Legacy.AbsShown | header.py:118-119 | a written absolute pattern parses back to itself |
| Legacy.AbsBody | header.py:166-171 | the trailing `/` of a written absolute pattern is there exactly for a directory pattern |
| Legacy.JoinedParts | header.py:172-174 | the parts of an absolute pattern, written with their leading `/`, split back into the same parts |
| Directives.DirectiveName | header.py:269 | `#\s*(\w+)` at the start of a line: a `#` and a non-empty word name |
| Directives.SkipComments | header.py:285-296 | the comment loop never moves backwards; running off the end leaves an empty line text |
| Directives.CommentEnd | header.py:287-296 | inside a comment: the line where `*/` is found, or the end of the text |
| Directives.Step | header.py:281-307 | one round of the outer loop: where the next round starts, or None when the scan stops |
| Directives.Extent | header.py:278-308 | the number of lines that stay above the header, at most one past the last line |
| Directives.Cut | header.py:309 | `text[:extent]` as a line count, clamped as Python slicing clamps |
| Directives.PassComments | header.py:285-296 | the comment loop computes `SkipComments` |
| Directives.ScanUnit | header.py:281-307 | one round of the outer loop computes `Step` |
| Directives.SplitDirectives | header.py:271-309 | the two parts make up the text, the first being the lines up to `Cut` |
| Directives.PlainLineKept | header.py:297-306 | a blank line, a `//` comment or a listed directive stays above the header and the scan goes on |
| Directives.CodeStops | header.py:307 | any other line that opens no comment stops the scan in front of it |
| Directives.OneLineCommentKept | header.py:285-300 | a comment closed on its opening line with nothing after it stays above the header |
| Directives.CommentRuns | header.py:291-296 | lines inside a comment that do not close it are passed over |
| Directives.ManyLineCommentKept | header.py:285-300 | a comment over several lines, closed with nothing after it, stays above the header |
| Directives.OpenCommentTakesAll | header.py:292-294 | a comment that is never closed keeps every remaining line above the header |
| Settings.IntOf | header.py:469-477 | `isinstance(value, int)` holds for booleans too: `True` is 1 and `False` is 0 |
| Settings.IgnoreList | header.py:451-461 | `set_ignore` accepts a string (a list of one) or a list of strings only |
| Settings.StringItems | header.py:457-460 | the strings of a list, exactly when every item is a string |
| Settings.AssignAccepts | header.py:499-508 | a setting succeeds exactly when its value has the type its setter checks; an unknown key is the `unknown setting` error |
| Settings.ErrorMessageFixed | header.py:445-487 | a setter's error message does not depend on the options it was given |
| Settings.ApplyFrame | header.py:445-487 | a setter changes its own option and no other |
| Settings.RunAccepts | header.py:499-508 | reading succeeds exactly when every field names a setter that accepts its value |
| Settings.RunStops | header.py:502-510 | the first failing field ends the reading with its message; the options are those set before it |
| Settings.TabsizeEndsRefused | header.py:474-477 | as written, `set_tabsize` refuses 1 and 8, both ends of the range its message names |
| Settings.TabsizeLikeEnviron | header.py:474-477 | the corrected range 1..8 is the one `lib/header/environ.py` gives `tabsize`, and includes every value the code as written accepts |
| Settings.OptionsBox.constructor | header.py:579-606 | the options start from the command-line defaults and the given filter |
| Settings.OptionsBox.SetGuardPrefix | header.py:445-449 | the prefix and the directory it applies from are set, or a type error |
| Settings.OptionsBox.SetIgnore | header.py:451-462 | new patterns go after the current ones, or a type error |
| Settings.OptionsBox.SetGuards | header.py:464-467 | `guards` is set, or a type error |
| Settings.OptionsBox.SetWidth | header.py:469-472 | `width` is set, or a type error |
| Settings.OptionsBox.SetTabsize | header.py:474-477 | `tabsize` is set within the corrected range, or the range error |
| Settings.OptionsBox.SetExternC | header.py:479-482 | `externc` is set, or a type error |
| Settings.OptionsBox.SetConfigH | header.py:484-487 | `configh` is set, or a type error |
| Settings.OptionsBox.Set | header.py:489-507 | the `SETKEYS` lookup and the setter call give the state `Assign` describes |
| Settings.OptionsBox.ReadSettings | header.py:499-508 | the fields are applied in turn up to the first error, as `Run` describes |
| Rule.MakeRules | header/rule.py:62-66 | the node keeps its settings and children; the legacy constructor also holds every key of its `DEFAULT_ENV`, overridden by the given settings |
| Rule.Setting | lib/header/rule.py:60-70 | a setting line yields the `SET` token of its name and the value `parse_var` gives exactly when `parse_var` accepts it, and otherwise the message of its `ValueError` |
| Rule.ClassifyFields | lib/header/rule.py:32-71 | a line that is not skipped is never blank; a heredoc is opened only in the current dialect and only with a non-empty terminator |
| Rule.ClassifyFieldsCases | lib/header/rule.py:32-71 | case by case: the `{` or `}` token exactly for a line that is just that brace, `syntax error` for a brace followed by more; a pattern token exactly for `+` or `-` with one more field, positive for `+` and holding the parsed pattern, `expected one pattern` otherwise; a bare name is a setting of no value, `name =` of the empty value, `name = value` of that value; `name = <<` is `expected EOF token name after <<` and `name = <<TOK` opens a heredoc named `name` with terminator `TOK`, both only in the current dialect; more than three fields after `=` is `too many fields`; anything else is `syntax error` |
| Rule.ClassifyLine | lib/header/rule.py:29-32 | a line is skipped exactly when its stripped text is empty or starts with `#`; any other line splits into non-empty fields and is decided by `ClassifyFields` |
| Rule.SignificantFields | lib/header/rule.py:29-32 | a line that is not skipped splits into at least one field, and no field is empty |
| Rule.FirstSignificant | lib/header/rule.py:27-31 | the first line from `i` on that `Lexer.next` does not skip: every line before it is skipped, and it is not skipped unless it is the end of the file |
| Rule.BodyLength | lib/header/rule.py:50-54 | the heredoc body stays inside the file and, when it ends before the end of the file, ends at a line whose right-stripped text is the terminator |
| Rule.BodyLengthFirst | lib/header/rule.py:52-53 | no line inside the body is a terminator: the body ends at the first one |
| Rule.HeredocBody | lib/header/rule.py:45-55 | the body is the file's lines from the start up to the terminator, and reading resumes after the terminator line, or at the end of a file that has none |
| Rule.NextToken | lib/header/rule.py:26-72 | `Lexer.next`: the line count only grows and stays in the file; a token advances it, end of file means every line was read, an error names the line it stopped at |
| Rule.NextTokenFirst | lib/header/rule.py:27-31 | `Lexer.next` reports the end of the file exactly when only skipped lines remain, and otherwise returns what the first line it does not skip yields |
| Rule.LineToken | lib/header/rule.py:27-71 | a line yields nothing exactly when it is skipped; otherwise a token or an error that moves past the line (and past a heredoc body), an error naming the last line read |
| Rule.LineTokenShape | lib/header/rule.py:33-41 | a line yields the `{` (`}`) token and moves on one line exactly when it is just that brace; it yields a pattern exactly when it is a pattern line, with that line's sign and parsed pattern; every token but a setting moves on one line |
| Rule.LineTokenOpen | lib/header/rule.py:33-36 | a line that is just `{` yields the `{` token and the next line |
| Rule.LineTokenClose | lib/header/rule.py:33-36 | a line that is just `}` yields the `}` token and the next line |
| Rule.LineTokenNotClose | lib/header/rule.py:33-36 | only a line that is just `}` yields the `}` token |
| Rule.LineTokenPattern | lib/header/rule.py:37-41 | a pattern line yields a pattern that is positive exactly for `+` and is the parse of its second field, and the next line |
| Rule.LineTokenSetting | lib/header/rule.py:42-62 | a line `name = value` that opens no heredoc and whose value `parse_var` accepts yields the `SET` token of the name and that value, and the next line |
| Rule.ErrorText | lib/header/rule.py:74-75 | the message of `Lexer.error` starts with the file name and `:`, and ends with `: ` and the reason |
| Rule.Lexer.constructor | lib/header/rule.py:21-23 | a lexer starts before the first line |
| Rule.Lexer.ReadHeredoc | lib/header/rule.py:49-54 | the heredoc loop reads exactly `HeredocBody`: the raw lines up to the terminator, and the line count after it |
| Rule.Lexer.Step | lib/header/rule.py:27-31 | one iteration of the outer loop: a skipped line moves on by one line without changing what `Lexer.next` will return; any other line ends the call with exactly `NextToken`'s token and line count |
| Rule.Lexer.ReadSetting | lib/header/rule.py:45-64 | the heredoc branch: the value parsed is the body's lines joined, and the line count is past the terminator |
| Rule.Lexer.Next | lib/header/rule.py:26-72 | `Lexer.next` returns `NextToken` of the current line count and leaves the count where `NextToken` says |
| Rule.Lexer.Error | lib/header/rule.py:74-75 | `Lexer.error` fails at the current line with the given reason |
| Rule.ReadGroup | lib/header/rule.py:140-156 | `_read_group` stays inside the file, and a failure names one of its lines |
| Rule.GroupItems | lib/header/rule.py:145-156 | the group loop stays inside the file, and a failure names one of its lines |
| Rule.ReadTop | lib/header/rule.py:164-175 | the top-level loop fails only at a line of the file |
| Rule.ReadRules | lib/header/rule.py:158-175 | `Rules.read` of a whole file fails only at a line of the file |
| Rule.ReadGroupFrom | lib/header/rule.py:140-156 | the imperative `_read_group` returns `ReadGroup` and leaves the lexer after the group |
| Rule.ReadFile | lib/header/rule.py:158-175 | the imperative `Rules.read` returns `ReadRules` |
| RuleReader.EndToken | lib/header/rule.py:27-72 | with only skipped lines left, `Lexer.next` reports the end of the file at the last line |
| RuleReader.OpenToken | lib/header/rule.py:27-36 | when the first line not skipped is just `{`, `Lexer.next` returns the `{` token and reading resumes after that line |
| RuleReader.CloseToken | lib/header/rule.py:27-36 | when the first line not skipped is just `}`, `Lexer.next` returns the `}` token and reading resumes after that line |
| RuleReader.PatternToken | lib/header/rule.py:27-41 | when the first line not skipped is a pattern line, `Lexer.next` returns its sign and parsed pattern and reading resumes after that line |
| RuleReader.SettingToken | lib/header/rule.py:27-62 | when the first line not skipped is `name = value` opening no heredoc, `Lexer.next` returns the `SET` token of the value `parse_var` reads and reading resumes after that line |
| RuleReader.NotCloseToken | lib/header/rule.py:27-36 | when no remaining line is just `}`, `Lexer.next` does not return the `}` token |
| RuleReader.GroupItemsEnd | lib/header/rule.py:145-156 | inside a group, reaching the end of the file fails with `missing brace` at the last line |
| RuleReader.GroupItemsClose | lib/header/rule.py:148-149 | a `}` line ends the group with the pattern set of the gathered patterns and the node of the gathered settings and children, and reading resumes after the brace |
| RuleReader.GroupItemsPattern | lib/header/rule.py:150-151 | a pattern line appends its sign and pattern to the gathered patterns and the group reads on from the next line |
| RuleReader.GroupItemsOnPattern | lib/header/rule.py:150-151 | after a pattern token the group reads on with that pattern appended |
| RuleReader.GroupItemsOnSet | lib/header/rule.py:152-153 | after a `SET` token the group reads on with `env[name] = value`, so a later line for the same name replaces an earlier one |
| RuleReader.GroupItemsOnOpen | lib/header/rule.py:146-147 | after a `{` token whose nested group reads as `c`, the group reads on from the end of the nested group with `c` appended to its children |
| RuleReader.GroupItemsSetting | lib/header/rule.py:152-153 | a line `name = value` inside a group sets `name` to the value `parse_var` reads, and the group reads on from the next line |
| RuleReader.GroupItemsKeeps | lib/header/rule.py:145-153 | a group that reads successfully has the children gathered before as its first children, in order, and every setting name gathered before |
| RuleReader.UnclosedGroupFails | lib/header/rule.py:145-156 | a group none of whose remaining lines is just `}` never reads successfully |
| RuleReader.ReadGroupEnd | lib/header/rule.py:141-156 | `_read_group` at the end of the file is `missing brace` at the last line |
| RuleReader.ReadGroupEmpty | lib/header/rule.py:141-149 | `_read_group` meeting `}` first gives an empty pattern set guarding a node with no settings and no children |
| RuleReader.ReadTopEnd | lib/header/rule.py:164-175 | at the top level the end of the file returns the node of the settings and children gathered |
| RuleReader.ReadTopExtraBrace | lib/header/rule.py:167-168 | at the top level a `}` line fails with `extra brace` at that line |
| RuleReader.ReadTopUnexpectedPattern | lib/header/rule.py:169-170 | at the top level a pattern line fails with `unexpected pattern` at that line |
| RuleReader.ReadTopGroupFails | lib/header/rule.py:165-166 | a group that fails to read fails the whole read |
| RuleReader.ReadTopOnSet | lib/header/rule.py:171-172 | after a `SET` token the top level reads on with `env[name] = value`, so a later line for the same name replaces an earlier one |
| RuleReader.ReadTopOnOpen | lib/header/rule.py:165-166 | after a `{` token whose group reads as `c`, the top level reads on from the end of the group with `c` appended to its children |
| RuleReader.ReadTopSetting | lib/header/rule.py:171-172 | a top-level line `name = value` sets `name` to the value `parse_var` reads, and reading goes on from the next line |
| RuleReader.ReadTopSetThenEnd | lib/header/rule.py:164-175 | a `SET` token followed by the end of the file makes the read return the node of the settings gathered with that name set to that value |
| RuleReader.ReadTopLastSetting | lib/header/rule.py:164-175 | when the last significant line is `name = value`, the read returns the node of the settings gathered with `name` set to that value (a file holding only `width = 100` has `width` 100) |
| RuleReader.ReadTopKeeps | lib/header/rule.py:164-175 | a successful read has the children gathered before as its first children, in order, and every setting name gathered before |
| RuleReader.ReadRulesEmpty | lib/header/rule.py:158-175 | a file of nothing but blank and `#` lines reads as the node with no settings and no children |
| RuleReader.ReadTopUnclosed | lib/header/rule.py:164-166 | a group opened at the top level and never closed by a `}` line makes the read fail |
| Rule.Collapse | lib/header/rule.py:77-79 | each maximal run of characters outside `[a-zA-Z0-9]` becomes one `_`: the result holds only letters, digits and `_`, never two `_` in a row, and keeps a leading token character |
| Rule.ToMacro | lib/header/rule.py:78-79 | `to_macro` yields a macro name: only upper-case letters, digits and single inner `_` |
| Rule.ToMacroFixed | lib/header/rule.py:78-79 | `to_macro` leaves a macro name unchanged |
| Rule.ToMacroIdempotent | lib/header/rule.py:78-79 | applying `to_macro` twice is applying it once |
| Rule.ToMacroSeparated | lib/header/rule.py:78-79 | two token-only names joined by any run of separator characters become the upper-cased names joined by one `_` |
| Rule.ToMacroToken | lib/header/rule.py:78-79 | a name made only of token characters just goes upper case |
| Rule.BaseEnvKeys | lib/header/rule.py:91-94 | the base environment has every default and every setting of the node, with the node's value winning over the default |
| Rule.BaseGuardName | lib/header/rule.py:95-101 | `guardname` becomes `prefix_MACRO` under a non-empty configured prefix and the macro name of the file otherwise |
| Rule.OverlayLookup | lib/header/rule.py:108-110 | after a sequence of `update` calls a key has the value of the last layer that sets it, else of the base |
| Rule.FileEnv | lib/header/rule.py:105-113 | `file_env` is `None` exactly when the resolved `ignore` is true, and a returned environment is never an ignored one |
| Rule.DirRules | lib/header/rule.py:115-128 | `dir_rules` is `None` exactly when the resolved `ignore` is true; otherwise it is the node built from the resolved settings, which it keeps, and its children are what each child passes on, in order |
| Rule.ResolveFileEnv | lib/header/rule.py:105-113 | the imperative `file_env` loop computes `FileEnv` |
| Rule.OverlayStep | lib/header/rule.py:109-110 | one step of the settings loop extends the overlay by the next matching child |
| Rule.PassStep | lib/header/rule.py:120-125 | one step of the children loop appends what that child passes on |
| Rule.ResolveDirRules | lib/header/rule.py:115-128 | the imperative `dir_rules` loop computes `DirRules` |
| Rule.ResolvedLastWins | lib/header/rule.py:108-110 | a resolved setting comes from the last matching child that sets it, and from the start environment when none does |
| Rule.FileEnvIgnore | lib/header/rule.py:105-113 | a file is ignored exactly when the last matching child that sets `ignore` sets it true, or when none does and the node's base `ignore` is true |
| Rule.KeptSource | lib/header/rule.py:119-125 | every child `dir_rules` passes on comes from one child of the node |
| Rule.KeptFrom | lib/header/rule.py:119-125 | every child that some child passes on appears in the list |
| Rule.PassedContents | lib/header/rule.py:120-125 | a child passes on its narrowed pattern set with its node exactly when that set is non-empty, and its own children exactly when the directory fully matches |
| Rule.UnionRules | lib/header/rule.py:130-138 | union with an empty node returns the other operand unchanged |
| Rule.UnionMerges | lib/header/rule.py:130-138 | a union holds the children of both operands in order, every setting of either, and the right operand's value where both set a key |
| Rule.UnionAssociates | lib/header/rule.py:130-138 | union is associative |
| Rule.LegacyNeverEmpty | header/rule.py:62-69 | a legacy node is never empty, since it always holds the defaults |
| Rule.LegacyUnionDefaults | header/rule.py:96-100 | in the legacy union the right operand's defaults replace the left operand's values, and the children are concatenated |
| Rule.GitignoreFile | lib/header/rule.py:177-181 | under the rules of an ignore file, a file is ignored exactly when the file's patterns match it |
| Rule.GitignoreDir | lib/header/rule.py:177-181 | under the rules of an ignore file, a directory is ignored exactly when the file's patterns match it |
| Scan.Named | lib/header/scan.py:6-22 | a configuration file that is found is a regular file of the listing with that name |
| Scan.FilesOf | lib/header/scan.py:27-30 | every name on the file list is a regular file of the listing |
| Scan.DirsOf | lib/header/scan.py:27-32 | every entry on the directory list is a subdirectory of the listing |
| Scan.ScanDir | lib/header/scan.py:5-68 | the imperative `scan_dir` yields exactly the files `Walk` reports, in order, and stops with the same error |
| Scan.LoadRules | lib/header/scan.py:6-22 | the inherited rules are united with `.gitignore` and then `.header`, when present, and a bad `.header` is an error |
| Scan.Classify | lib/header/scan.py:24-32 | the `lstat` loop splits the listing into its regular files and its subdirectories, both in listing order |
| Scan.ReportFiles | lib/header/scan.py:34-42 | the file loop reports `FilesFound`: the files that pass the filters and `file_env`, in order, each with its environment |
| Scan.ReportFile | lib/header/scan.py:35-42 | one pass of the file loop appends the file exactly when the filters and `file_env` admit it |
| Scan.ScanChild | lib/header/scan.py:44-68 | one pass of the directory loop, including the recursive walk, reports `WalkSub` of that subdirectory |
| Scan.NarrowFilters | lib/header/scan.py:45-60 | the include and exclude tests of the directory loop compute `SubFilters` |
| Scan.Classified | lib/header/scan.py:27-32 | the file list holds exactly the regular files of the listing and the directory list exactly its subdirectories; links and other entries are in neither |
| Scan.FoundSource | lib/header/scan.py:34-42 | every file the loop reports passed both filters and is not ignored by `file_env`, which gave its environment |
| Scan.FoundFrom | lib/header/scan.py:34-42 | every file that passes both filters and that `file_env` keeps is reported |
| Scan.WalkUnder | lib/header/scan.py:34-68 | every file the walk yields lies below the directory walked |
| Scan.WalkDirsUnder | lib/header/scan.py:44-68 | every file yielded from a subdirectory lies at least two levels below the directory |
| Scan.WalkSubUnder | lib/header/scan.py:64-68 | every file yielded from a subdirectory lies below that subdirectory |
| Scan.SubtreeSource | lib/header/scan.py:44-68 | a file found below a subdirectory comes from a subdirectory that passed the filters, was not ignored by `dir_rules` and holds no `.git` |
| Scan.SubtreeCut | lib/header/scan.py:45-66 | nothing is yielded below a subdirectory that the filters skip, that `dir_rules` ignores, or that holds `.git` |
| Scan.FileReported | lib/header/scan.py:34-42 | a file of the directory itself is yielded with an environment exactly when it is a regular file, passes both filters and `file_env` gives it that environment |
| Scan.FilesFirst | lib/header/scan.py:34-68 | within one directory its own files are all yielded before any file of a subdirectory |
| Scan.RuleFileWins | lib/header/scan.py:6-22 | the children come in the order inherited, ignore file, rule file, and a setting of the rule file wins over an inherited one |
| Scan.LayeredRules | lib/header/scan.py:6-22 | the layered node has the inherited children, then the ignore file's, then the rule file's; a setting of the rule file wins, and any other key keeps its inherited value |
| Scan.IncludeDropped | lib/header/scan.py:45-52 | a subdirectory is skipped only by a full exclude match once the include set fully matches, and its subtree is then walked with no include filter |
| Scan.ExcludeWins | lib/header/scan.py:53-56 | a directory the exclude set fully matches is skipped, whatever the include set says |
| SourceFiles.OrEmpty | lib/header/sourcefile.py:114-115 | `list(x or ())`: the list held, or no lines for `None` |
| SourceFiles.NeatAppend | lib/header/sourcefile.py:45-48 | a line with text appended, after one blank line or not, keeps the lines neat |
| SourceFiles.ContentAppend | lib/header/sourcefile.py:45-48 | the lines with text grow by exactly the line appended |
| SourceFiles.TidyStepNeat | lib/header/sourcefile.py:43-51 | one pass of the `fix_whitespace` loop keeps the output neat and adds the stripped line, if it has text, to the content |
| SourceFiles.TidiedNeat | lib/header/sourcefile.py:35-52 | `fix_whitespace` leaves neat lines (no trailing whitespace, each line ends in a newline, single blank lines between text, none at either end), and the lines with text are the input's, in order, right-stripped |
| SourceFiles.RStripFilled | lib/header/sourcefile.py:44 | a line with text ending in a newline loses exactly the newline to `rstrip` |
| SourceFiles.TidyBlank | lib/header/sourcefile.py:50-51 | a blank line only marks a gap |
| SourceFiles.TidyFilled | lib/header/sourcefile.py:45-49 | a line with text is kept, after one blank line when a gap is pending and output exists, and clears the gap |
| SourceFiles.TidyPrefix | lib/header/sourcefile.py:43-51 | on neat lines the loop has reproduced each prefix as it stands |
| SourceFiles.TidiedIdempotent | lib/header/sourcefile.py:35-52 | `fix_whitespace` is idempotent: neat lines are left as they are |
| SourceFiles.ExpandNoTabs | lib/header/sourcefile.py:57 | no tab survives `expandtabs` |
| SourceFiles.ExpandPlain | lib/header/sourcefile.py:57 | text without tabs is left as it is by `expandtabs` |
| SourceFiles.ExpandAll | lib/header/sourcefile.py:54-57 | `expand_tabs` keeps the number of lines and leaves no tab in any of them |
| SourceFiles.LongMembers | lib/header/sourcefile.py:92-104 | `long_lines` reports exactly the lines, numbered from 1 with their length without the newline, longer than a positive width, and nothing for a width of zero or less |
| SourceFiles.LongOrdered | lib/header/sourcefile.py:97-104 | `long_lines` reports the lines in increasing order |
| SourceFiles.WrapNothing | lib/header/sourcefile.py:106-132 | wrapping nothing changes nothing |
| SourceFiles.WrapLayout | lib/header/sourcefile.py:121-132 | `wrap` puts `head` first and `tail` last, the old lines between, with one blank line after `head` only when `addspace_start` was set and the first line has text, and likewise before `tail` |
| SourceFiles.WrapFramed | lib/header/sourcefile.py:116-132 | whatever the buffer holds, `wrap` puts `head` first and `tail` last |
| SourceFiles.WrapSmallBlank | lib/header/sourcefile.py:116-120 | a buffer of fewer than two lines without text becomes two blank lines between `head` and `tail` when either flag is set |
| SourceFiles.WrapFlags | lib/header/sourcefile.py:121-130 | `wrap` sets a padding flag only on a side where it added text |
| SourceFiles.WrapStacks | lib/header/sourcefile.py:121-125 | a head wrapped with `addspace_start` false is followed directly by the next head: no blank line between stacked heads |
| SourceFiles.PassesShape | lib/header/sourcefile.py:59-66 | the passes, with `filetype.source` read as "has a comment syntax": shebang first, copyright exactly for such types, the guard exactly for `h` and `hxx`, extern-C exactly for `h` with `extern_c`, each at most once in that order |
| SourceFiles.PassesAsWritten | lib/header/sourcefile.py:59-62 | as written, `filters` yields the shebang pass and then raises on the missing `source` field |
| SourceFiles.PassesAsWrittenLoses | lib/header/sourcefile.py:59-66 | as written, every header type and every commentable type runs fewer passes than intended |
| SourceFiles.FindNotice | lib/header/sourcefile.py:167-171 | the loop over the comment finds a line whose upper-cased text contains `COPYRIGHT` exactly when one exists |
| SourceFiles.ShebangRestores | lib/header/sourcefile.py:134-141 | the shebang pass takes line 0 off exactly when it starts with `#!`, and puts it back first whatever came between, padded only when the buffer asks, clearing `addspace_start` |
| SourceFiles.CopyrightTakes | lib/header/sourcefile.py:165-173 | the copyright pass takes off the leading comment exactly when it names a copyright, and the comment and the rest rebuild the buffer |
| SourceFiles.CopyrightKeepsText | lib/header/sourcefile.py:175-179 | with `fix_copyright` off, the copyright pass gives back exactly the buffer it was handed |
| SourceFiles.RestoreAsWritten | lib/header/sourcefile.py:176-179 | as written, the second step with `fix_copyright` off raises exactly when no comment was saved, and otherwise puts the comment's lines first |
| SourceFiles.RestoreAsWrittenFails | lib/header/sourcefile.py:165-179 | an empty file with `fix_copyright` off saves no comment, so the written second step raises |
| SourceFiles.GuardTakes | lib/header/sourcefile.py:143-153 | the guard pass strips the guard only from a body of at least three lines starting `#ifndef` and `#define` and ending `#endif`, keeping the leading comments |
| SourceFiles.GuardPutsBack | lib/header/sourcefile.py:155-163 | with `guards` set and a non-empty `guardname`, the comments come first, then the `#ifndef`/`#define` pair, and `#endif` last |
| SourceFiles.GuardLeftOut | lib/header/sourcefile.py:155-163 | otherwise no guard line is added: the comments come back first, padded only when there were comments and the buffer asks for it |
| SourceFiles.ExternCOnlyOnce | lib/header/sourcefile.py:200-212 | the extern-C wrapper goes around the buffer only when no line mentions `extern "C"`, and once added the pass finds it |
| SourceFiles.Forward | lib/header/sourcefile.py:26-30 | the first loop saves one value per pass, each from its own pass |
| SourceFiles.RunIsNested | lib/header/sourcefile.py:24-33 | `run_filters` (every first step in order, then the saved second steps in reverse) is the nesting of the passes, each putting its part back around what the later passes did |
| SourceFiles.SourceFile.constructor | lib/header/sourcefile.py:14-22 | a buffer over the file's lines, asking for padding on both sides |
| SourceFiles.SourceFile.FixWhitespace | lib/header/sourcefile.py:35-52 | the loop leaves `Tidied` of the old lines and the flags unchanged |
| SourceFiles.SourceFile.ExpandTabs | lib/header/sourcefile.py:54-57 | every line expanded with the environment's `tabsize`, flags unchanged |
| SourceFiles.SourceFile.LongLines | lib/header/sourcefile.py:92-104 | the loop returns `Long` of the lines with the environment's `width` |
| SourceFiles.SourceFile.Wrap | lib/header/sourcefile.py:106-132 | the new state is `Wrapped` of the old one |
| SourceFiles.SourceFile.ShebangFilter1 | lib/header/sourcefile.py:134-137 | `shebang_filter1` takes off a `#!` first line |
| SourceFiles.SourceFile.ShebangFilter2 | lib/header/sourcefile.py:139-141 | `shebang_filter2` wraps the saved line back on |
| SourceFiles.SourceFile.CopyrightFilter1 | lib/header/sourcefile.py:165-173 | `copyright_filter1` takes off the leading comment when it names a copyright |
| SourceFiles.SourceFile.CopyrightFilter2 | lib/header/sourcefile.py:175-198 | `copyright_filter2` puts the comment back, or writes the rebuilt notice |
| SourceFiles.SourceFile.GuardFilter1 | lib/header/sourcefile.py:143-153 | `headerguard_filter1` strips the guard and keeps the comments |
| SourceFiles.SourceFile.GuardFilter2 | lib/header/sourcefile.py:155-163 | `headerguard_filter2` puts the comments and the guard back |
| SourceFiles.SourceFile.ExternCFilter1 | lib/header/sourcefile.py:200-201 | `externc_filter1` is true exactly when some line mentions `extern "C"` |
| SourceFiles.SourceFile.ExternCFilter2 | lib/header/sourcefile.py:203-212 | `externc_filter2` adds the wrapper unless it was found |
| SourceFiles.SourceFile.Step1 | lib/header/sourcefile.py:27-29 | dispatching a first step by the pass's name |
| SourceFiles.SourceFile.Step2 | lib/header/sourcefile.py:28-33 | dispatching a second step by the saved value |
| SourceFiles.SourceFile.TakeAll | lib/header/sourcefile.py:25-30 | the first loop leaves the buffer and the saved values of `Forward` |
| SourceFiles.SourceFile.PutAll | lib/header/sourcefile.py:31-33 | the second loop runs the saved second steps, the last pass's first |
| SourceFiles.SourceFile.RunFilters | lib/header/sourcefile.py:24-33 | `run_filters` leaves the nesting of the passes `filters` selects |
| FixHeader.GuardSub | fixheader.py:207 | `guard_re.sub("_", ...)` never lengthens the path and leaves only word characters |
| FixHeader.HeaderGuardname | fixheader.py:294-295 | `header_guardname` never lengthens the path and leaves only `[_A-Z0-9]` |
| FixHeader.GuardSubRun | fixheader.py:207 | a run of word characters is kept, the maximal run of other characters after it becomes one `_`, and the substitution goes on after that run |
| FixHeader.GuardSubOfWord | fixheader.py:207 | a string of word characters only is left as it is |
| FixHeader.GuardnameIdempotent | fixheader.py:294-295 | a guard name is its own guard name |
| FixHeader.BaseName | fixheader.py:240 | the last component is a suffix of the path without `/`, preceded by `/` when shorter than the path |
| FixHeader.ExcludeMatchLast | fixheader.py:38 | `exclude_re` matches a path exactly when its last component starts with `.` or `#` or ends with `~` |
| FixHeader.FilterPath | fixheader.py:367-372 | a path is handled exactly when its last component is not hidden that way and it is not in `EXCLUDE` |
| FixHeader.HandlerName | fixheader.py:239-248 | `handler_name` gives a name only to a path `filter_path` keeps, and for such a path exactly the `exts` entry of its extension |
| FixHeader.MakeHandler | fixheader.py:227-234 | a maker exists exactly for `skip`, `c`, `h` and `py`, and every comment handler has a comment syntax |
| FixHeader.ExtsHandled | fixheader.py:216-234 | every handler name in `exts` has a maker |
| FixHeader.HandlerKey | fixheader.py:250 | `handler_name(path) or 'skip'` always names a handler that has a maker |
| FixHeader.HeaderFixer.constructor | fixheader.py:209-210 | a fixer starts with an empty handler cache |
| FixHeader.HeaderFixer.HandlerFor | fixheader.py:249-260 | `handler` returns the handler the maker builds for the path's key and caches it under that key; the unknown-handler error is never raised |
| FixHeader.GetLineHeader | fixheader.py:97-103 | the line-comment loop takes the longest prefix of lines starting with the marker, each stripped of it and of whitespace, and stops at the first other line |
| FixHeader.CloseFrom | fixheader.py:107-117 | the first line from a given one that holds the closing marker, none before it |
| FixHeader.Stripped | fixheader.py:109-112 | each of the first lines, the first without the opening marker, stripped |
| FixHeader.GetBlockHeader | fixheader.py:104-117 | the block-comment loop computes `BlockHeader`: the lines up to the first one holding the closing marker (all lines when none does), stripped, the closing line cut at the marker, and text after the marker refused |
| FixHeader.BlockHeaderClosed | fixheader.py:111-117 | a closing line is cut at its first marker, and text after the marker is refused |
| FixHeader.BlockHeaderOpen | fixheader.py:107-112 | a comment that is never closed takes the whole body |
| FixHeader.GetHeader | fixheader.py:93-118 | `get_header` reads line comments when the first line starts with the line marker, else a block comment when it starts with the opening marker, else nothing |
| FixHeader.Spaces | fixheader.py:126 | `' ' * n` is `n` blanks |
| FixHeader.Comment | fixheader.py:119-138 | `comment` returns an empty list as it is; with a block syntax it rewrites the list in place into `BlockCommented` and returns it; otherwise it returns `LineCommented` and leaves the argument alone |
| FixHeader.StripAll | fixheader.py:100 | each line, stripped |
| FixHeader.LineCommentReadsBack | fixheader.py:97-103 | a header written with line comments is read back line for line by `get_header` when the next line does not start with the marker |
| FixHeader.NoCloseInside | fixheader.py:111 | whitespace around a text without the closing marker gives a line without it |
| FixHeader.CloseAtEnd | fixheader.py:133-134 | the marker written after the last line's text is the first in that line |
| FixHeader.BlockCommentReadsBack | fixheader.py:104-138 | a header written as a block comment is read back by `get_header`, whatever follows it, when the closing marker has no whitespace and no line of the text contains it |
| FixHeader.GetGuard | fixheader.py:165-182 | `get_guard` splits off the `#ifndef`/`#define` pair of a guarded body and, from the end, blank lines and at most one `#endif`; an unguarded body is all middle |
| FixHeader.EndifNotBlank | fixheader.py:173-178 | an `#endif` line is not blank |
| FixHeader.GuardSplitUnique | fixheader.py:165-182 | the split `get_guard` returns is the only one meeting its contract |
| FixHeader.GuardLinesGuarded | fixheader.py:186 | the lines `apply_guard` writes open a guard |
| FixHeader.GuardReapplied | fixheader.py:183-204 | a body `apply_guard` rewrote splits back into the guard it wrote, the same middle and its `#endif`, so a second run changes nothing |
| SHeader.ToMacroName | sheader.py:74-76 | `toMacroName` keeps the length and maps each `/` to `_` and every other character to upper case |
| SHeader.GuardSubOfSingleSlashes | fixheader.py:207 | on a path of word characters with single `/` separators, the substitution of fixheader.py replaces each `/` by `_` |
| SHeader.MacroNameIsGuardname | sheader.py:74-76 | on such paths `toMacroName` agrees with `header_guardname` of fixheader.py |
| SHeader.SplitHeader | sheader.py:80-89 | `splitHeader` splits the lines into a header and the rest; the header is non-empty exactly when the first line contains the opening marker and some line contains the closing one, and then ends at the first line containing it |
| SHeader.HeaderPartsUnique | sheader.py:80-89 | the split `splitHeader` returns is the only one meeting its contract |
| SHeader.WrittenHeaderParts | sheader.py:80-89 | a header block comment as fixheader.py writes it, with what follows, is a split `splitHeader` allows |
| SHeader.SplitHeaderReadsBack | sheader.py:80-89 | `splitHeader` finds exactly the block comment fixheader.py writes, whatever follows it, when no line of the text contains the closing marker |
| SHeader.NoEndif | sheader.py:97-107 | when the backward scan meets a line that is neither blank nor `#endif`, no `#endif` followed only by blank lines exists |
| SHeader.SplitGuard | sheader.py:91-114 | `splitGuard` splits off the `#ifndef`/`#define` pair and everything from the last `#endif` on exactly when only blank lines follow that `#endif`; otherwise the whole body is the middle |
| SHeader.GuardPartsUnique | sheader.py:91-114 | the split `splitGuard` returns is the only one meeting its contract |
| SHeader.EndifUnique | sheader.py:97-101 | at most one line is an `#endif` followed only by blank lines |
| SHeader.GuardPartsAgree | sheader.py:91-114 | whenever `splitGuard` finds a guard, `get_guard` of fixheader.py splits the body the same way |
| SHeader.SplitGuardReapplied | sheader.py:91-114 | a body wrapped in the guard fixheader.py writes splits back into that guard, the same body and its `#endif` |
| SHeader.ProcessedIsC | sheader.py:206-221 | every file `processFilePath` processes and `exclude_re` does not hide is a C file or a C header for fixheader.py too |
| SHeader.SameTable | sheader.py:206 | every extension of `exts` is in fixheader.py's table, as C or, for `h`, as a C header |
| SHeader.DotFileSkipped | sheader.py:208-213 | a dot file is skipped by both programs |

## Left out

- Reading and writing files, prompting, printing diffs and the command-line front ends are not modelled. This covers `Handler.handle`, the prompts of `apply_header` and `apply_guard`, `fix_header`, `process_dir` and `run` in fixheader.py. It also covers `processFile`, `printDiffs`, `ask`, `getFileModYears` (git log), `getOldCopyright` (svn) and the `os.walk` of `processDirPath` in sheader.py.
- From header.py, the prompts, git lookups, diffs and writes of `scan_file`, `scan_dir` and `run` are not modelled, and neither is `ChainDict`. From lib/header, `tool.py`, `diff.py`, `git.py`, `util.py` and `colors.py` are not modelled, nor are `read_global_gitignore` and the `dump` printers of `Rules`.
- Directory listings, `lstat` and the `.git` test are an in-memory tree. Listing order is the order of that tree's entries.
- The iteration order of Python sets and dictionaries is unspecified. Where it matters, the list being iterated is an input. Examples are `format_years` over a year set and the authors in `Authorship.dump`. Lemmas show the result does not depend on that order where the code sorts.
- Glob.GlobMatch: `fnmatch` is modelled as a small matcher for `*`, `?` and literal characters, case sensitive as on POSIX. A `[` is matched literally, so bracket classes `[...]` are not modelled.
- `copyright_filter2`'s calls to the unseen `comment.comment`, `remove_blank_lines`, `extract_lead_comments` and the authorship registry are function-valued parameters (`SourceFiles.Helpers`). The model states what the filters do around them, not what they compute.
- `lib/header/pattern.py` and `header/environ.py` are not part of this model. The rule engine uses the pattern model of `header/pattern.py`. Both rule dialects read settings with `Environ.EnvTypes`. That table is `ENV_TYPES` of `lib/header/environ.py` completed with `guard_prefix`, `copyright_notice` and `fix_copyright`, as the lib/header/environ.py:37-45 row under "## Findings" explains; the table as written is `Environ.EnvTypesAsWritten`.
- `header/scan.py` yields nothing and is not modelled.
- Python's `int()` is modelled on optionally signed decimal digits with surrounding whitespace. `Environ.ReadValue`, `Environ.ParseVarIn` and `Environ.DumpVar` put the offending text in single quotes in their errors; `repr`'s switch to double quotes for a text holding `'` and its escaping of backslashes and control characters are not modelled. The year-list members of module `Ranges` (`Ranges.ItemRangeRefused`, `Ranges.ItemSingle`, `Ranges.CombineFails`, `Ranges.ParseYears`) use the abbreviated message `ValueError: invalid literal for int() with base 10` (the constant `Ranges.NotAnInteger`), without the offending text.
- Python 2 byte strings are modelled as sequences of characters. Whitespace is the ASCII set `str.strip()` removes, and upper-casing affects ASCII letters only.
- FixHeader.ExcludeMatchLast: `exclude_re` is modelled on paths without newline characters, where `.` in the pattern matches every character.
- FixHeader.GetBlockHeader: an empty closing marker is the `ValueError` of `str.split` with an empty separator; no handler in the source has one.
- FileTypes.Standard: the method is proved to build a consistent registry, but the exact contents of the standard table are not restated as a lemma.
- Ranges.RangeRoundTrip: the round trip is proved for non-negative years only. A negative year is written with a `-` that the parser reads as a range.
- Copyright.Authorship.Dump: the lines are `Notices` of ghost entries that satisfy `Listing`. The model does not prove that `Listing` has only one solution, which would need antisymmetry and transitivity of Python's order on `(years, author)` tuples.
- Pattern.Descend: `PatternSet.match_dir` tests the undefined name `match` at header/pattern.py:86. The model tests the pattern's own verdict `pat_match`.
- Pattern.Union: header/pattern.py:104 calls the constructor with two arguments. The model passes the concatenated entries.
- Pattern.ParseEntries: header/pattern.py:118 reads the misspelt `pasitive`. The model uses the polarity computed just before.
- Pattern.ReadSet: header/pattern.py:133 hands raw strings to the constructor. The model parses them first.
- Rule.ClassifyFields: header/rule.py:35 uses the unimported `pattern` module, and header/rule.py:50 uses the unbound `name`. The legacy lexer is modelled as the current one minus heredocs.
- Rule.Lexer.Error: the failure keeps the line number and the reason. The file name that `Lexer.error` puts in front is not carried; `Rule.ErrorText` gives the `file:line: reason` text.
- Rule.ReadRules: its own contract bounds the failing line only. What the reader does at a `{`, a `}`, a pattern line, a setting, an unclosed group and the end of the file is proved of `ReadTop` and `GroupItems` at any line, in module `RuleReader`; `ReadRules` is `ReadTop` from the first line with nothing gathered.
- Rule.ReadGroup: its own contract bounds the lines it reads only. It is `GroupItems` from the line after the `{` with nothing gathered, and what each token contributes to the group is proved of `GroupItems` in module `RuleReader`: a `SET` token sets its name (`GroupItemsOnSet`, `GroupItemsSetting`), a nested group is appended to the children (`GroupItemsOnOpen`), a pattern is appended to the patterns and `}` builds the child. The value a setting ends up with is stated step by step, not as one closed formula over the whole file.

## Findings

| source | as written | input that shows it | evidently intended | confidence | as-written member | corrected member |
|---|---|---|---|---|---|---|
| lib/header/environ.py:37-45 | `ENV_TYPES` has no `guard_prefix`, `copyright_notice` or `fix_copyright`, although `DEFAULT_ENV` defaults all three | a rule file with the line `copyright_notice = x` is refused as an unknown variable | the three defaulted variables can be set in a rule file | not executed | Rule.CopyrightNoticeUnknown | Rule.ExtraVariablesSettable |
| lib/header/comment.py:55 | `post[len(blockend)]` tests the one character after the closing delimiter | the last line `*/ x` is accepted with text after the comment, and `*/` at the very end of the text raises `IndexError` | `post[len(blockend):]`: only whitespace may follow the delimiter | not executed | Comment.ClosingAcceptsTrailingText | Comment.LeadBlockCommentShape |
| header.py:474-477 | `set_tabsize` accepts `1 < value < 8` | `tabsize` set to 8, the usual tab width, is refused, and so is 1 | `1 <= value <= 8`, as the message says and `lib/header/environ.py` bounds it | not executed | Settings.TabsizeEndsRefused | Settings.TabsizeLikeEnviron |
| lib/header/sourcefile.py:61 | `filters` reads `self.filetype.source`, a field no file type has | any file: after the shebang pass the generator raises `AttributeError` | the copyright pass runs for file types with a comment syntax | not executed | SourceFiles.PassesAsWrittenLoses | SourceFiles.PassesShape |
| lib/header/sourcefile.py:177 | with `fix_copyright` off, `copyright_filter2` iterates over the saved comment | a file with no copyright comment (the empty file, say): the saved value is `None` and the iteration raises `TypeError` | give back the buffer unchanged when nothing was taken off | not executed | SourceFiles.RestoreAsWrittenFails | SourceFiles.CopyrightKeepsText |
