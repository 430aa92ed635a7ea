# skilly: verified models

skilly is a registry for agent skills. This project models the logic of its shared package
(`packages/shared/src`) that carries the hard promises, and of the worker's digest sweep, in the form
the code has: loops, arrays and objects where the code updates in place, functions where it computes.
Each method is proved to do what a specification says, and what the code, its comments and its written
specification promise is proved about that for all inputs, all runs or all interleavings.

Check everything with `dafny verify dfyconfig.toml` (Dafny 4.11).

| part | modules |
|---|---|
| line diff: the first of the optimal scripts, hunks that patch | LineDiff, LineDiffOrder |
| search language: parser, printer, synonym candidates, compiler, what a search finds, synonyms only widen | SearchQuery, SearchReading, SearchGaps, GapIdempotence, SearchCandidates, SearchCompose, SearchRequests, SearchSynonyms, SearchApplied |
| SKILL.md deprecation rewrite: last write wins, what the output says | TextLines, Deprecation, DeprecationNotes, DeprecationValue, DeprecationRerun, DeprecationHint, DeprecationSays, DeprecationOutput |
| search-gap counting under interleaving | GapTables, GapCounting, GapLoss, GapRetention, GapStore |
| digest clock, sweep and lines | DigestClock, DigestSweep, DigestLines |
| token refresh protocol | TokenRefresh |
| frontmatter parser, written frontmatter is read back | Frontmatter, FrontmatterScalars, FrontmatterPrint |
| tag scanner and sanitizer loop | TagScanner |
| business time | BusinessTime |
| version order and what relies on it | Semver, VersionChain, Upstream |
| bounded selection, grouping, text indexes | DraftPlan, PluginGroups, PluginLayout, TextIndex, RiskText, PrereviewInput |

## Where the code and its documentation differ

The models follow the code. Each point has a lemma with the input that shows it and one with the exact
condition under which the promise holds, or with what holds in its place.

- `deprecation.ts:132-143` promises idempotence. It holds exactly for a stable description
  (`DeprecationHint.LastWriteWins`), and fails for a file with an empty description or a quoted one
  that starts with a blank (`DeprecationHint.EmptyDescriptionFile`, `DeprecationHint.BlankInQuotesFile`).
- `deprecation.ts:136-140` says a block scalar gets the prefix as its first line. An empty block in front of
  another key does not (`DeprecationSays.EmptyBlockLosesPrefix`, `DeprecationSays.PrefixInBlockIff`).
- `deprecation.ts:212-216` says both comment terminators in a note are broken. The note `<!--->` keeps
  one (`DeprecationNotes.TerminatorSurvives`), and the exact condition is an opener overlapping a
  terminator (`DeprecationNotes.TerminatorsBroken`). Openers are always broken.
- A normalized gap query is meant to be canonical. Normalizing it again changes it for queries such as
  `"-ab" c` (`GapIdempotence.NotAlwaysOnce`); `GapIdempotence.NormalizesOnce` has the condition.
- `email-digest.ts:292-293` says a skipped local time gives the transition itself. It does for the
  first skipped moment only (`DigestClock.SkippedTimeOvershoots`, `DigestClock.AroundChange`).
- The product's written specification, section 62.3, says a late hit of the previous day is folded on
  the next pass. One that lands between the fold's count and its delete is lost
  (`GapCounting.StragglerIsLost`), and only such a one is (`GapLoss.HitsKeptIff`).
- `plugin-marketplace.ts:268-274` says a shared skill can never shadow one of the namespace's own. It
  can (`PluginGroups.SharedMayShadowOwn`, `PluginGroups.OwnIsShadowedIff`).
- `packages/worker/src/notify/digest.ts:85-86` says a stamp newer than 22 hours can be skipped, because
  slots are at least 23 hours apart. A stamp may be of another slot: moving the send hour leaves it as it
  is, and the sweep then skips subscribers who are due (`DigestSweep.MovedHourSkipsDue`). The shortcut is
  right exactly for a stamp that is not before the slot or more than 22 hours before it
  (`DigestSweep.SlackSafeIff`), which holds while the hour and the zone stand and offsets vary by less
  than two hours (`DigestSweep.SlackIsSafe`, `DigestSweep.SlackSkipsDue`). Whoever is skipped is served by
  the first sweep past the 22 hours that can send (`DigestSweep.ServedLater`).
- A slot stamped is a slot closed (section 48.6 of the product's written specification), so none should
  get two digests. None does while the choice stands (`DigestSweep.OneDigestASlot`) or changes under
  settings that stay (`DigestSweep.OneDigestASlotEver`). Settings that move the
  schedule behind a changed choice may give one slot two (`DigestSweep.SettingsMaySendTwice`);
  `DigestSweep.InOrderAfterReset` has the condition.
- `search.ts:334` says the synonym groups listed are those the query was expanded by. They are those its
  n-grams name (`SearchApplied.AppliedExactly`), also when the cap of ten texts leaves one without a part
  (`SearchApplied.ListedButCapped`).
- `quality.ts:172-176` says nested mappings and block lists are read. A mapping in a list is read exactly
  when its first key has its value on the same line or a block below, and is not quoted
  (`FrontmatterPrint.MappingItemIff`).
- `content-risk.ts:131` has phrase patterns run on text with single spaces. A compatibility fold may
  bring a blank of its own (`RiskText.DiaeresisCrowds`); `RiskText.BlanksApartIff` has the condition.

## Model

| member | source | states |
|---|---|---|
| LineDiff.SplitLinesInverse | packages/shared/src/linediff.ts:39-44 | No text is lost by splitting: its lines, each ended by a newline, are the text itself (plus the missing final newline, if any), and no line holds a newline |
| LineDiff.LcsDropFirst | packages/shared/src/linediff.ts:62-70 | Dropping the first line of either side costs at most one common line and gains none: why the backtrack may follow the larger of two table cells |
| LineDiff.FillTable | packages/shared/src/linediff.ts:58-70 | The row-major uint32 buffer, filled bottom-up in place, holds in cell (i, j) the length of a longest common subsequence of the two suffixes; no cell wraps around |
| LineDiff.Backtrack | packages/shared/src/linediff.ts:72-101 | The two-cursor walk over the finished table yields the edit script, and its two counters are the numbers of added and removed lines in it |
| LineDiff.EditScriptTransforms | packages/shared/src/linediff.ts:72-101 | The context and deleted lines of the script are exactly the old lines in order, its context and added lines exactly the new ones |
| LineDiff.EditScriptNumbered | packages/shared/src/linediff.ts:77-100 | Lines are numbered 1, 2, ... on each side, and a line absent from a side has no number there |
| LineDiff.EditScriptKeepsLcs | packages/shared/src/linediff.ts:58-101 | The script keeps as many lines as a longest common subsequence has |
| LineDiff.NoScriptBeatsLcs | packages/shared/src/linediff.ts:58-70 | No script whatever that turns one suffix into the other keeps more lines than the table cell says |
| LineDiff.EditScriptMinimal | packages/shared/src/linediff.ts:51-104 | The script is correct, numbered from 1, has n + m - 2 LCS changes, and no other order-preserving script between the two texts has fewer |
| LineDiffOrder.EditScriptFirst | packages/shared/src/linediff.ts:72-101 | Of all scripts that turn one side into the other and keep as many lines it is the first in the order context, deletion, addition |
| LineDiffOrder.DeletionsFirst | packages/shared/src/linediff.ts:72-101 | Where lines were replaced the deleted ones stand before the added ones: no deletion stands right behind an addition |
| LineDiff.ChangedLines | packages/shared/src/linediff.ts:109-111 | The positions collected are exactly those of the changed lines, increasing |
| LineDiff.AddWindow | packages/shared/src/linediff.ts:114-120 | Adding a context window, by widening the last range in place or appending, covers exactly the old lines and the window, and ranges stay apart by at least one line |
| LineDiff.ContextRanges | packages/shared/src/linediff.ts:113-120 | The ranges are the maximal runs of script lines within three lines of a change: covering exactly those, increasing, with a line between any two |
| LineDiff.GroupHunks | packages/shared/src/linediff.ts:108-130 | One hunk for each maximal run, in order; none when nothing changed |
| LineDiff.RunsAhead | packages/shared/src/linediff.ts:113-129 | From the end of one run to the start of the next there are only context lines, so every change is in exactly one hunk |
| LineDiff.HunkStarts | packages/shared/src/linediff.ts:122-129 | The recorded old and new start of a hunk are one more than the number of old and new lines before it |
| LineDiffOrder.HunksShow | packages/shared/src/linediff.ts:108-130 | Strung together, the hunks show exactly the lines within three lines of a change; the lines of each stand in a row at the places and with the lengths it records, at 0 on a side where it has none, and between two hunks a line is left out |
| LineDiff.HunksPatch | packages/shared/src/linediff.ts:108-130 | A strict patch interpreter, which checks every recorded place, length and old line, accepts the hunks on the old lines and produces the new lines |
| LineDiff.DiffLines | packages/shared/src/linediff.ts:51-104 | Refused exactly when a side is over 2000 lines; otherwise the counts add up to the fewest possible changes and the hunks patch the old lines into the new ones |
| SearchQuery.ScanToken | packages/shared/src/search.ts:97-133 | One turn of the cursor loop reads the token the language defines there and moves strictly forward |
| SearchQuery.Scan | packages/shared/src/search.ts:92-134 | The scan reads the token sequence of the text, stopping at 12 terms with the cursor at the text not read, and knows whether an operator was seen |
| SearchQuery.AssembleItems | packages/shared/src/search.ts:136-175 | The flag-driven assembly builds the tree of the tokens, and its last-positive reference is the last non-OR token when that is positive |
| SearchQuery.ParseSearchQuery | packages/shared/src/search.ts:87-190 | Every text parses; no tree only without a query or below the two-character floor |
| SearchReading.NormalizedText | packages/shared/src/search.ts:72-76 | A query is normalized to its parts between white space, one blank apart, cut behind 200 characters and trimmed there |
| SearchReading.TokenShape | packages/shared/src/search.ts:97-133 | What a token is, by its characters: a dash in front of anything but a blank excludes; a bare one ends at the next blank or quote, a quoted one at the next quote or the end, and has the non-empty parts between blanks as its words |
| SearchReading.LexReads | packages/shared/src/search.ts:92-134 | At most 12 terms are read, ORs aside, and text is left over only behind the twelfth; the query is free of operators if and only if what was read is positive words without a quote |
| SearchReading.AssembleJoins | packages/shared/src/search.ts:136-175 | For any tokens: the leaves of the tree are the positive ones in order, two neighbours are in one group if and only if ORs and nothing else stand between them, and the exclusions are the negative ones in order |
| SearchReading.ParseReads | packages/shared/src/search.ts:87-190 | Every text of two characters or more parses, to the tree its tokens determine; only the last positive may be marked as a prefix, and it is if and only if the text was read to its end and ends with a word of two or more letters or digits that no OR joins, or a phrase without its closing quote that ends with such a word |
| SearchReading.TypedWord | packages/shared/src/search.ts:177-188 | A word typed last is marked exactly when it is such a word and no OR joins it |
| SearchReading.OpenPhrase | packages/shared/src/search.ts:177-188 | A phrase typed last without its closing quote is marked exactly when its last word is such a word |
| SearchReading.CutQuery | packages/shared/src/search.ts:177-188 | A query cut by the term cap has no mark |
| SearchGaps.TokenReads | packages/shared/src/search.ts:97-133 | The text of a readable token, followed by a space or the end, scans as that token and nothing else |
| SearchGaps.ItemsRead | packages/shared/src/search.ts:92-134 | Tokens written one blank apart scan back as the same tokens, whatever text follows |
| SearchGaps.AssembleFlatten | packages/shared/src/search.ts:136-175 | The tokens of a tree assemble to that tree, with hasOr exactly when it has an OR group |
| SearchGaps.NormalizeTidy | packages/shared/src/search.ts:73-76 | A text with single blanks inside and none outside, within the cap, is left as it is |
| SearchGaps.PrintIsJoin | packages/shared/src/search-gaps.ts:90-107 | The printed text of a tree is the text of its lower-cased tokens, one blank apart |
| SearchGaps.CaseIsForgotten | packages/shared/src/search-gaps.ts:90-107 | Of a word, printing forgets the case of letters and nothing else, and leaves no capital |
| SearchGaps.ReadBack | packages/shared/src/search.ts:87-190 | A printed token sequence of at most 12 terms and 2 to 200 characters parses to what the assembler makes of exactly those tokens |
| SearchGaps.ParseUndoesPrint | packages/shared/src/search-gaps.ts:90-109 | Printing a canonical tree and parsing the text gives the tree back up to prefix marks, with the right hasOr, operatorFree and text |
| GapIdempotence.TreeTokens | packages/shared/src/search.ts:136-175 | Assembling never adds: the tree has the same number of terms, no longer text, and only tokens that were read |
| GapIdempotence.OrderedIffAssembled | packages/shared/src/search.ts:136-175 | The tree of some tokens has exactly those tokens if and only if they are ordered: positives first, ORs between positives, exclusions last |
| GapIdempotence.JoinInjective | packages/shared/src/search-gaps.ts:104-109 | Two readable token sequences that print alike are the same sequence: different gaps never share a text |
| GapIdempotence.PrintAgain | packages/shared/src/search-gaps.ts:104-114 | Tokens already in printed form print again unchanged if and only if they are ordered |
| GapIdempotence.CutQuote | packages/shared/src/search.ts:73-76 | Cutting only the closing quote of a last phrase at the cap leaves its tokens as they were, that phrase open |
| GapIdempotence.CutBound | packages/shared/src/search.ts:73-76 | Whatever the cap cuts off, what is left prints at most one character longer than the cut |
| GapIdempotence.NormalizePrinted | packages/shared/src/search-gaps.ts:104-114 | Normalizing a printed text is printing the tree of its own tokens if its length keeps, and a different text otherwise |
| GapIdempotence.StableIffOrdered | packages/shared/src/search-gaps.ts:90-109 | A tree prints as ordered tokens if and only if quoted "-words" stand, as plain units, only behind some other positive |
| GapIdempotence.NormalizesOnce | packages/shared/src/search-gaps.ts:104-114 | For every query: normalizing its normalized text changes nothing if and only if that text keeps its length when parsed and the tree is stable in the sense above |
| GapIdempotence.NotAlwaysOnce | packages/shared/src/search-gaps.ts:104-114 | A query for which it does change: a quoted "-ab" before c prints as an exclusion, which a second pass moves behind c |
| SearchCompose.OrMatches | packages/shared/src/search.ts:338-340 | A disjunction text matches a row when some non-empty part does, and is empty exactly when all parts are |
| SearchCompose.AndMatches | packages/shared/src/search.ts:338-340 | A conjunction text matches a row when all non-empty parts do, and is empty exactly when all parts are |
| SearchCompose.PlanFragments | packages/shared/src/search.ts:250-266 | The plan keeps the tree; its leaves carry the numbers 0, 1, ... and request k is leaf k's, a bijection with what the SQL side returns; what a request asks for is `SearchRequests.RequestMeansLeaf` |
| SearchRequests.RequestMeansLeaf | packages/shared/src/search.ts:245-264 | Over documents as sequences of words a term's request asks what the term does: a word, a word so started, words in a row, or words in a row of which the last is so started |
| SearchRequests.ParsedSound | packages/shared/src/search.ts:87-190 | Every term of a parsed query is made of words without blanks, white space and quotes, as that needs |
| SearchRequests.FindsWhatIsTyped | packages/shared/src/search.ts:346-414 | Without synonyms a search finds exactly the documents that hold every positive unit typed, and excludes exactly those that hold some excluded term |
| SearchCompose.CollectSynonyms | packages/shared/src/search.ts:357-364 | At an n-gram the non-empty member texts of all its groups, in order, the first ten; all its groups are listed as applied, one with the same key in place |
| SearchCompose.LongestNgram | packages/shared/src/search.ts:383-391 | The longest n-gram of two to four bare words that names a synonym group, else one word |
| SearchCompose.WalkIncreases | packages/shared/src/search.ts:366-397 | The walk only moves forward and stays within the units |
| SearchCompose.WalkPartitions | packages/shared/src/search.ts:366-397 | Every positive unit lies in exactly one step of the walk |
| SearchCompose.ComposeStep | packages/shared/src/search.ts:370-396 | One turn of the walk gives the step's query and its number of units, and lists the groups of the n-grams looked up |
| SearchRequests.StepTakes | packages/shared/src/search.ts:383-391 | A step takes the longest two to four bare words that, one blank apart, name a synonym group, or else one unit |
| SearchRequests.StepFinds | packages/shared/src/search.ts:392-395 | A step of bare words matches exactly the rows that hold its words or one of the first ten texts they bring as synonyms |
| SearchRequests.OtherStepFinds | packages/shared/src/search.ts:370-382 | A phrase matches by its fragment alone, an OR group by the fragment of a member or a synonym of a bare word among them |
| SearchRequests.MemberTexts | packages/shared/src/search.ts:357-364 | The texts an n-gram brings are the non-empty ones of the groups it names |
| SearchCompose.ComposeUnits | packages/shared/src/search.ts:366-397 | The walk gives the queries of its steps in order, without the empty ones, and lists the groups of all n-grams looked up |
| SearchCompose.ComposeSearch | packages/shared/src/search.ts:346-414 | From the tree: strict is the conjunction and any the disjunction of the units of its plan; relaxable, excluded, exclusionsOnly, the substring and typo texts and the groups applied exactly as the source sets them |
| SearchCompose.UnitsExactly | packages/shared/src/search.ts:366-397 | The units are the queries of the surviving steps, all of them and no others |
| SearchCompose.StrictImpliesAny | packages/shared/src/search.ts:400-406 | A row that matches strict matches every unit, and any |
| SearchCompose.WithSynonymsMatches | packages/shared/src/search.ts:392-395 | A synonym widens: a row matches if it matches what was typed or holds a synonym text, and a typed part never disappears |
| SearchCompose.TypedMatchesStrict | packages/shared/src/search.ts:346-397 | A row that matches every surviving typed fragment matches strict, provided no step stands on its synonyms alone |
| SearchCompose.BareMeansTyped | packages/shared/src/search.ts:346-397 | Without synonyms strict matches exactly the rows that match everything typed |
| SearchCompose.SynonymsWiden | packages/shared/src/search.ts:346-397 | A row found without synonyms is found with them, under the same proviso |
| SearchCompose.WidensIffAnchored | packages/shared/src/search.ts:357-395 | The proviso is exact where a step without typed fragments has synonym texts of its own: all rows matching what was typed match strict if and only if no step stands on its synonyms alone |
| SearchCompose.AloneNarrows | packages/shared/src/search.ts:392-395 | A normalization with such a step, which narrows: what rules it out is not the walk but the query below |
| SearchApplied.KeyTells | packages/shared/src/search.ts:360 | The key a group is listed under tells it from every other, as texts hold no NUL |
| SearchApplied.AppliedExactly | packages/shared/src/search.ts:355-360 | The groups listed as applied are exactly those some looked-up n-gram names, each once |
| SearchApplied.UnlistedUnused | packages/shared/src/search.ts:334-412 | Without the matches of all groups that are not listed the query compiles to the same units |
| SearchApplied.ListedButCapped | packages/shared/src/search.ts:357-364 | A group behind the first ten texts of its n-gram is listed although none of its texts is used |
| SearchSynonyms.QueryNamesSurvivors | packages/shared/src/search.ts:290-314 | The normalization query joins groups only to n-grams with a lexeme, so whatever n-gram or OR member a group is named by has a surviving typed fragment |
| SearchSynonyms.NamedIsAnchored | packages/shared/src/search.ts:366-397 | Then no step stands on its synonyms alone |
| SearchSynonyms.TypedRowsFound | packages/shared/src/search.ts:290-414 | Whatever synonym groups there are, a row that matches everything typed matches strict |
| SearchSynonyms.GroupsOnlyWiden | packages/shared/src/search.ts:290-414 | Synonym groups only widen: what is found without any is found with all of them |
| SearchCandidates.BareRuns | packages/shared/src/search.ts:195-207 | Every stretch of consecutive bare words lies within one run, and every run is such a stretch |
| SearchCandidates.RunNgrams | packages/shared/src/search.ts:214-217 | The texts added for a run are its n-grams of one to four words |
| SearchCandidates.SynonymCandidates | packages/shared/src/search.ts:212-223 | The candidates are exactly the one- to four-word n-grams of consecutive bare words and the bare words of OR groups |
| SearchCandidates.LooksUpCandidates | packages/shared/src/search.ts:383-395 | Every n-gram the compiler's walk looks up is a candidate |
| SearchCandidates.CandidatesSuffice | packages/shared/src/search.ts:346-397 | Asking only for the candidates' synonyms loses nothing: the units compiled from their matches are the units compiled from all matches |
| Deprecation.FmEndExactly | packages/shared/src/deprecation.ts:149-158 | There is a frontmatter exactly when the first line is a rule and a later one is; it ends at the first of those |
| DeprecationHint.KeptAppend | packages/shared/src/deprecation.ts:163-166 | A line stays unless it is a `deprecated` or `superseded_by` key, whatever stands around it, and the others keep their order |
| Deprecation.SeparateKeeps | packages/shared/src/deprecation.ts:192-195 | The body is kept behind at most one blank line, and separating again adds none |
| Deprecation.SpliceBlock | packages/shared/src/deprecation.ts:173-179 | The two splices on a block scalar drop an old prefix line and put the new one first, at the block's indent, and touch nothing before the block |
| Deprecation.DescribeLines | packages/shared/src/deprecation.ts:168-184 | The loop prefixes the first description of the frontmatter and leaves all other lines |
| Deprecation.BuildBanner | packages/shared/src/deprecation.ts:197-210 | The banner lines: marker, notice, the neutralized note quoted line by line, closing marker |
| Deprecation.BuildDeprecationHint | packages/shared/src/deprecation.ts:144-190 | The filter, description splice, header and banner, put together with loops and index splices, are the rewriting function; what its output says is `DeprecationOutput.FrontmatterSays` |
| DeprecationOutput.FrontmatterSays | packages/shared/src/deprecation.ts:131-190 | Read off the lines written: exactly one frontmatter line has the key `deprecated`, with the value true, and one names the successor in quotes if and only if there is one; every other line but the description is kept, in order; behind it stand the banner, one blank line and the body, with the line breaks of the input |
| DeprecationOutput.BodySays | packages/shared/src/deprecation.ts:156-161 | Without a frontmatter the banner, one blank line and the lines of the file |
| DeprecationOutput.BannerIs | packages/shared/src/deprecation.ts:197-210 | The banner stands between its two marks, names the successor in backquotes, with the URL if there is one, and quotes the note line by line |
| DeprecationOutput.NoteBroken | packages/shared/src/deprecation.ts:212-219 | The note quoted is the note with blanks added between dashes; one without comment marks is quoted as it is |
| DeprecationSays.DescribeSays | packages/shared/src/deprecation.ts:168-184 | The first description gets the prefix for the successor and no other line is touched |
| DeprecationSays.Stripped | packages/shared/src/deprecation.ts:102-111 | An old prefix is one of the two texts ever written, with any reference, and the white space behind it; it goes whole or not at all |
| DeprecationSays.InlinePrefixed | packages/shared/src/deprecation.ts:114-129 | On one line the prefix stands in front of the text, inside its quotes if it is quoted to the end of the line, a comment aside, in place of an old one; all else of the line stays |
| DeprecationSays.BlockGets | packages/shared/src/deprecation.ts:172-180 | In a block the prefix is a line of its own in front, indented like the first line that is not blank, and an old prefix that fills that line goes |
| DeprecationSays.BlockMarkIs | packages/shared/src/deprecation.ts:171 | A block is announced by the marks the frontmatter parser knows, and perhaps digits |
| DeprecationSays.PrefixInBlockIff | packages/shared/src/deprecation.ts:136-140 | That line is part of the block, for the frontmatter parser, if and only if the line it is indented like starts with a blank, or there is none |
| DeprecationSays.EmptyBlockLosesPrefix | packages/shared/src/deprecation.ts:172-180 | A frontmatter with an empty block, in which it is not |
| DeprecationNotes.NoteHasNoOpener | packages/shared/src/deprecation.ts:212-219 | A neutralized note never contains a comment opener, so no note can forge a marker |
| DeprecationNotes.TerminatorsBroken | packages/shared/src/deprecation.ts:212-219 | A neutralized note still contains a comment terminator if and only if the note has an opener overlapping one |
| DeprecationNotes.TerminatorSurvives | packages/shared/src/deprecation.ts:212-219 | The documented promise that both terminators are broken fails for the note `<!--->` |
| DeprecationValue.StripPrefixed | packages/shared/src/deprecation.ts:102-111 | The prefix the rewrite writes is the prefix it strips: what is left is the text without leading white space |
| DeprecationValue.ClosingMoves | packages/shared/src/deprecation.ts:120-126 | Replacing the front of a quoted text inside its quotes does not change which quote closes it |
| DeprecationValue.ValueTwice | packages/shared/src/deprecation.ts:114-130 | Prefixing a value for a and then for b equals prefixing it for b alone if and only if the value is stable: not empty, or quoted without leading white space, once an old prefix is gone |
| DeprecationRerun.InlineTwice | packages/shared/src/deprecation.ts:114-130 | The same for a whole description line, which stays an inline description |
| DeprecationRerun.BlockTwice | packages/shared/src/deprecation.ts:173-179 | On a block scalar the second prefix line always replaces the first |
| DeprecationRerun.DescribeTwice | packages/shared/src/deprecation.ts:168-184 | The same for the frontmatter: the last write wins exactly when the description it finds is stable |
| DeprecationRerun.DescribeFine | packages/shared/src/deprecation.ts:168-184 | Prefixing keeps every frontmatter line whole: no new rule, marker, line break or inserted key |
| DeprecationHint.BannerRemoved | packages/shared/src/deprecation.ts:221-231 | The banner is found again and removed with its line break, leaving the other lines |
| DeprecationHint.FmEndIs | packages/shared/src/deprecation.ts:149-158 | Between two rules with none inside, the frontmatter is what stands between them |
| DeprecationHint.ReadsBack | packages/shared/src/deprecation.ts:160-189 | The frontmatter the rewrite wrote is the one it finds, the two inserted keys are filtered out again, and the body stays the body |
| DeprecationHint.WrittenIsRead | packages/shared/src/deprecation.ts:144-190 | A rewritten file reads back as the lines written, without the banner, with the same line break, and is settled again |
| DeprecationHint.LastWriteWins | packages/shared/src/deprecation.ts:132-190 | For a settled file and any two inputs, rewriting for a and then for b equals rewriting for b alone if and only if the description is stable; idempotence is a = b |
| DeprecationHint.StaysStable | packages/shared/src/deprecation.ts:132-190 | A rewritten stable file is stable |
| DeprecationHint.OnlyTheLastShows | packages/shared/src/deprecation.ts:132-190 | After any sequence of rewrites of a stable file only the last one shows |
| DeprecationHint.UnmarkedIsSettled | packages/shared/src/deprecation.ts:144-190 | Every file without a banner marker is settled, so the above holds for it |
| DeprecationHint.EmptyDescriptionGrows | packages/shared/src/deprecation.ts:127-129 | An empty description is what fails: over any sequence of rewrites, each but the first makes it a blank longer |
| DeprecationHint.EmptyDescriptionFile | packages/shared/src/deprecation.ts:132-190 | A SKILL.md with an empty description on which the last write does not win, for any inputs |
| DeprecationHint.BlankInQuotesFile | packages/shared/src/deprecation.ts:120-126 | Another, with a quoted description that starts with a blank |
| GapTables.UpsertSums | packages/shared/src/search-gaps-db.ts:83-92 | An upsert counts one hit, and one row more exactly when that person is new for the day and query, given one salt a day |
| GapTables.FoldedSums | packages/shared/src/search-gaps-db.ts:114-122 | Folding rows moves their hits and their number into the daily counts, key by key |
| GapTables.RetainedSums | packages/shared/src/search-gaps-db.ts:125-128 | Pruning leaves the daily counts of retained days alone |
| GapRetention.RetainedExactly | packages/shared/src/search-gaps-db.ts:125-128 | It leaves exactly the rows at or behind the bound, as often as they were there |
| GapRetention.RetainedAppend | packages/shared/src/search-gaps-db.ts:125-128 | And in their order |
| GapStore.Tables.InsertSalt | packages/shared/src/search-gaps-db.ts:41-48 | A salt is made only for the database's own current day, and only when it has none |
| GapStore.Tables.FoldSearchGapDays | packages/shared/src/search-gaps-db.ts:105-144 | The uninterrupted fold moves all finished days into the daily counts, drops their rows and salts, and prunes: no daily row is older than 90 days before today, and for every retained day and key the sums add up |
| GapStore.Tables.DeleteGapCounts | packages/shared/src/search-gaps-db.ts:146-150 | Live and daily hits, users and searchers of the query's keys are gone; those of every other key stay |
| GapStore.Process.TodaysSalt | packages/shared/src/search-gaps-db.ts:37-54 | The cached salt when it is of today, else the stored one, made if need be; the cache then holds it |
| GapStore.Process.RecordGapHit | packages/shared/src/search-gaps-db.ts:70-81 | The outcome by its first failing test; nothing touched unless the hit is recorded, and then one upsert under the cached, stored or newly stored salt of today |
| GapStore.RecorderIsRun | packages/shared/src/search-gaps-db.ts:37-92 | A call's statements run as steps without interruption are that recorder: the same salt, stored salts, cache and hits |
| GapStore.FoldIsFold | packages/shared/src/search-gaps-db.ts:105-144 | Its four statements run as steps without interruption are that fold |
| GapCounting.SaltsKept | packages/shared/src/search-gaps-db.ts:37-54 | Every step of every process keeps: one salt issued a day, and every cached, held or hashed salt is the one issued |
| GapCounting.BooksKept | packages/shared/src/search-gaps-db.ts:70-150 | Every step keeps the books of every key: recorded = live + folded + lost, and people likewise |
| GapCounting.Reachable | packages/shared/src/search-gaps-db.ts:37-150 | Both hold in every state that any interleaving of recorders, folds and deletions reaches from empty tables |
| GapRetention.AgedKept | packages/shared/src/search-gaps-db.ts:105-144 | Every step keeps: no daily count is older than 90 days before the last committed fold, and no salt is of a day it finished |
| GapRetention.AgedEver | packages/shared/src/search-gaps-db.ts:105-144 | So it is in every reachable state |
| GapRetention.CommitCloses | packages/shared/src/search-gaps-db.ts:120-128 | A committed fold leaves exactly the salts from its own day on, and daily counts of the 90 days before it |
| GapCounting.OneSaltEver | packages/shared/src/search-gaps-db.ts:37-54 | Over every interleaving at most one salt value ever exists for a day, and all its rows are hashed with it |
| GapCounting.HitsConserved | packages/shared/src/search-gaps-db.ts:70-128 | Live plus folded hits equal the recordings, for every key retained and not deleted, less those lost between a fold's count and its delete |
| GapCounting.SearchersNeverUndercount | packages/shared/src/search-gaps-db.ts:83-122 | Live plus folded searchers never fall short of the distinct people, apart from those same lost recordings |
| GapCounting.SearchersExact | packages/shared/src/search-gaps-db.ts:83-122 | They are exact, and no hit is lost, when no recording lands after its day was counted |
| GapCounting.NothingLost | packages/shared/src/search-gaps-db.ts:105-123 | Nothing is lost in any run whose folds delete right after they count |
| GapLoss.StepCounts | packages/shared/src/search-gaps-db.ts:83-124 | What one step adds to the hits waiting to be lost and to those lost |
| GapLoss.LossIs | packages/shared/src/search-gaps-db.ts:105-144 | A run loses a hit of a key if and only if one is recorded for a finished day between the count and the delete of a fold that commits, or one was waiting at the start and its fold commits |
| GapLoss.HitsKeptIff | packages/shared/src/search-gaps-db.ts:70-144 | So live and folded hits of a retained key equal its recordings if and only if the run has no such pair of events |
| GapCounting.StragglerIsLost | packages/shared/src/search-gaps-db.ts:105-123 | A run in which a late recording is lost, against the specification's promise that the next pass folds it |
| DigestClock.AroundChange | packages/shared/src/email-digest.ts:283-296 | Around one offset change: the instant reads the requested local time and is the first that does, if any does; else it lies as far behind the change as the request lies into the jump, so it is the change exactly for the first skipped moment |
| DigestClock.InstantIsFirst | packages/shared/src/email-digest.ts:283-296 | For any zone with at most one change nearby: least instant reading the time, and never before it |
| DigestClock.SkippedTimeOvershoots | packages/shared/src/email-digest.ts:283-313 | A send hour, in a zone that jumps two hours, for which the slot is an hour past the transition the comment promises |
| DigestClock.DigestSlot | packages/shared/src/email-digest.ts:302-318 | The loop ends at a slot at or before now on a scheduled day, and every later scheduled day up to today has its slot ahead; the guard past fifteen days is never reached |
| DigestClock.OneCurrent | packages/shared/src/email-digest.ts:302-318 | That determines the slot |
| DigestClock.WeekdaysInTurn | packages/shared/src/email-digest.ts:307-311 | Weekdays are counted from Monday, 1, to Sunday, 7, day after day |
| DigestClock.OldSlotsHavePassed | packages/shared/src/email-digest.ts:312-317 | A slot three local days back has always passed, which is why the loop ends |
| DigestClock.LaterSlotsAreAhead | packages/shared/src/email-digest.ts:298-318 | No slot of a later local day is at or before now, if the local date never steps back |
| DigestClock.DateSteppingBackMatters | packages/shared/src/email-digest.ts:298-318 | Without that assumption one is: a zone in which the date steps back |
| DigestSweep.Subscriber.Sweep | packages/worker/src/notify/digest.ts:83-155 | One sweep over the stored stamp and failure count is a step of the runs below, and says whether a digest went out |
| DigestSweep.SweepSays | packages/worker/src/notify/digest.ts:83-155 | A sweep sends exactly when the stamp is older than 22 hours and than the slot and sending succeeds, closes the slot unless sending is throttled or fails with attempts left, and on first sight closes it without sending |
| DigestSweep.OneDigestASlot | packages/worker/src/notify/digest.ts:96-165 | While the choice stands no slot gets two digests, whatever slots the sweeps compute and whatever the settings do meanwhile |
| DigestSweep.OneDigestASlotEver | packages/worker/src/notify/digest.ts:96-167 | Nor over any run of sweeps and changed choices, overlapping ones and ones changed back during a sweep included, when each sweep has its schedule's most recent slot |
| DigestSweep.InOrderIff | packages/worker/src/notify/digest.ts:96-165 | Whatever slots the settings lead to, the next digest cannot be for a slot at or before the last one sent if and only if there is no stamp or the stamp is not before that slot |
| DigestSweep.InOrderAfterReset | packages/web/src/lib/emailDigest.ts:38-50 | Behind a changed choice, if and only if the slot stamped at first sight is not before the last one sent |
| DigestSweep.SettingsMaySendTwice | packages/web/src/lib/emailDigest.ts:71-112 | A run, each slot the digest clock's, in which one gets two: daily, then weekly on Fridays, then the weekday moved to Saturday |
| DigestSweep.OutageSendsOne | packages/worker/src/notify/digest.ts:96-155 | However many slots were missed, the sweeps up to the next slot send one digest in all |
| DigestSweep.FailuresSendAtMostOne | packages/worker/src/notify/digest.ts:83-155 | Whatever happens to the attempts, the sweeps of a stretch with one slot send at most one digest |
| DigestSweep.ClosedIff | packages/worker/src/notify/digest.ts:115-155 | They close a due slot if and only if some attempt closes it by itself or the failed ones, throttled ones not counted, use up the attempts allowed; else only the failures are counted |
| DigestSweep.SlotsApart | packages/worker/src/notify/digest.ts:85-86 | Slots of different days are at least a day less the zone's band of offsets apart: 23 hours with summer time |
| DigestSweep.SkippedWhile | packages/worker/src/notify/digest.ts:85-92 | A due subscriber is skipped exactly until the stamp is 22 hours old |
| DigestSweep.SlackSafeIff | packages/worker/src/notify/digest.ts:85-92 | For any stamp and slot: the shortcut skips nobody due if and only if the stamp is not before the slot or more than 22 hours before it |
| DigestSweep.SlackIsSafe | packages/worker/src/notify/digest.ts:85-92 | So it is while the hour and the zone stand, where offsets vary by less than two hours |
| DigestSweep.MovedHourSkipsDue | packages/web/src/lib/emailDigest.ts:71-112 | It is not when the send hour is moved: from 08:00 to 10:00 in UTC, a due subscriber is skipped at 05:00 the next day |
| DigestSweep.SlackSkipsDue | packages/worker/src/notify/digest.ts:85-92 | Nor, with the hour and the zone unchanged, with a two-hour change: slots 22 hours apart, and a sweep right at the second skips a subscriber who is due |
| DigestSweep.ServedLater | packages/worker/src/notify/digest.ts:85-155 | Whoever is skipped is served by the first sweep past the 22 hours that can send |
| DigestSweep.SlotIsMostRecent | packages/shared/src/email-digest.ts:298-318 | The slot computed is the schedule's most recent, in a zone whose date never steps back |
| DigestLines.GroupRows | packages/shared/src/email-digest.ts:394-406 | Every row lands in exactly one group of exactly one section, with its key's rows in order |
| DigestLines.SameLineIff | packages/shared/src/email-digest.ts:398-406 | Rows of one section share a line if and only if they are about the same skill, person, proposal, request or import; any other row has a line of its own |
| DigestLines.SubjectsBySection | packages/shared/src/email-digest.ts:398-406 | People are those followed, proposals, requests and imports are one's own, all else is about skills |
| DigestLines.LinesOf | packages/shared/src/email-digest.ts:408-474 | One line a group, standing for all its rows, dated by its newest |
| DigestLines.SortedLines | packages/shared/src/email-digest.ts:480 | Sorting permutes the lines, newest first, and keeps the rows they stand for |
| DigestLines.SortedStable | packages/shared/src/email-digest.ts:480 | Lines of the same time stay in the order of their first rows |
| DigestLines.Cap | packages/shared/src/email-digest.ts:482-490 | At most 50 lines are kept, from the front in section order, with no line kept behind a cut section; the overflow is the number of rows behind the lines cut |
| DigestLines.RenderDigest | packages/shared/src/email-digest.ts:385-510 | Rows behind the lines shown plus the overflow are all rows; each line shown stands for exactly its key's rows; an overflow only when 50 lines are shown |
| TokenRefresh.Mailbox.EnsureFreshAccessToken | packages/shared/src/email-graph.ts:93-194 | The four outcomes and the row each leaves: no account, a cached token with over 120 s left, a failure recorded without touching the tokens, a refresh stored with the rotated or the old token |
| TokenRefresh.CallIsRun | packages/shared/src/email-graph.ts:93-194 | An uninterrupted call, in each of its five outcomes, is a run of the protocol's steps with the same result and row |
| TokenRefresh.StepKeeps | packages/shared/src/email-graph.ts:93-194 | Every step of refreshers, reconnects and disconnects keeps the invariant on row, lock and endpoint |
| TokenRefresh.RunKeeps | packages/shared/src/email-graph.ts:93-194 | So does every run |
| TokenRefresh.StoredTokenAccepted | packages/shared/src/email-graph.ts:86-93 | In every reachable state with the row unlocked, the stored refresh token is accepted and not superseded |
| TokenRefresh.PresentsAccepted | packages/shared/src/email-graph.ts:120-148 | A token presented to the endpoint was accepted, and not superseded, when it was presented |
| TokenRefresh.ReturnedTokensFresh | packages/shared/src/email-graph.ts:106-173 | Every access token returned expires, at the endpoint, over 120 s later, less the longest time a grant took to be stored, or was minted by the call that returned it; its recorded expiry is the real one up to that time |
| TokenRefresh.NotAskedIff | packages/shared/src/email-graph.ts:106-118 | The endpoint is not asked if and only if the row holds an access token that opens with the key and has over 120 s left |
| TokenRefresh.RefreshLeaves | packages/shared/src/email-graph.ts:170-183 | What a refresh stores opens with the key, as granted: the access token, its lifetime, the rotated refresh token or the old one, and no error |
| Frontmatter.Parser.ReadBlockScalar | packages/shared/src/quality.ts:182-197 | Takes exactly the blank and deeper lines that follow; the text is those lines without the block's indent and the empty lines at the end, joined or folded |
| FrontmatterScalars.FoldsToOneLine | packages/shared/src/quality.ts:195-197 | Folded, lines without an empty one among them are one line, a blank apart |
| FrontmatterScalars.FoldsParagraphs | packages/shared/src/quality.ts:195-197 | An empty line between two paragraphs is a line break between them |
| FrontmatterScalars.BlockMarks | packages/shared/src/quality.ts:254 | The six block marks |
| FrontmatterScalars.QuotedIsRead | packages/shared/src/quality.ts:132-139 | Whatever stands between two equal quotes is read as it is |
| FrontmatterScalars.CommentIsDropped | packages/shared/src/quality.ts:158-163 | What stands behind a blank and a hash is no part of a value that is not quoted |
| FrontmatterScalars.PlainIsRead | packages/shared/src/quality.ts:132-148 | A plain value is null, a truth value or a number where it is written as one, and else its own text |
| FrontmatterScalars.ListIsRead | packages/shared/src/quality.ts:143-146 | An inline list is read item by item |
| FrontmatterScalars.EmptyListIsRead | packages/shared/src/quality.ts:143-146 | An empty one as the empty list |
| FrontmatterScalars.RemarksAreSkipped | packages/shared/src/quality.ts:200-226 | Blank lines and comment lines are no part of a mapping or a list |
| FrontmatterScalars.StraysAreSkipped | packages/shared/src/quality.ts:227-232 | A line deeper than the keys of its mapping, without a key, or of a list is passed over |
| Frontmatter.Parser.ReadList | packages/shared/src/quality.ts:199-219 | Reads the items of the list the lines hold and stops where it ends, although items rewrite lines behind the cursor; no plain top-level key was passed |
| Frontmatter.Parser.ReadItem | packages/shared/src/quality.ts:207-216 | Steps back and rewrites the line of an item that starts with a pair, and reads the mapping from there; the lines from the cursor on are untouched |
| Frontmatter.Parser.ReadNested | packages/shared/src/quality.ts:237-252 | What is nested below a key: a deeper list or mapping, a list as deep as the key, or null; with a termination measure shared by the mutual recursion |
| Frontmatter.Parser.ReadMapping | packages/shared/src/quality.ts:221-260 | Reads the fields of the mapping the lines hold; at the top it reads all lines and records exactly the keys it returns, each at a line that holds it at indent 0 and with the value that stands there, and no later plain key line of that name exists |
| Frontmatter.SameValue | packages/shared/src/quality.ts:199-219 | The value of a key, nested or not, does not depend on the lines above it, so rewriting one does not change it |
| FrontmatterPrint.ReadsPairs | packages/shared/src/quality.ts:221-260 | A mapping of scalars, block scalars, mappings and lists, written at any indent and to any depth, is read as what it means, up to its last line |
| FrontmatterPrint.ReadsItems | packages/shared/src/quality.ts:199-219 | So is a list of scalars and mappings, each mapping started on its item's line |
| FrontmatterPrint.ReadsParts | packages/shared/src/quality.ts:182-197 | So is a block scalar |
| FrontmatterPrint.MappingItemIff | packages/shared/src/quality.ts:207-216 | A mapping written as a list item is read as that mapping if and only if its first key has a scalar or a block behind it and does not start with a quote |
| FrontmatterPrint.PrintedIsRead | packages/shared/src/quality.ts:177-263 | A whole frontmatter written out is read back: every key has its value and every line is read |
| FrontmatterPrint.NestedPairsAreRead | packages/shared/src/quality.ts:237-245 | A mapping may stand below its key however much deeper, with blank lines between |
| FrontmatterPrint.NestedItemsAreRead | packages/shared/src/quality.ts:237-250 | So may a list, which may also stand as deep as its key |
| Frontmatter.ParseFrontmatterYaml | packages/shared/src/quality.ts:177-263 | On every input the parser ends with the mapping its lines hold; its key lines and values have the same keys, every plain top-level key is found, and each key holds the value at its line, nested ones included |
| Frontmatter.ScanExact | packages/shared/src/quality.ts:177-263 | When no top-level key line can be taken for a list item, the recorded lines are exactly those of a one-line scan for the last line of each key |
| Frontmatter.ScanSound | packages/shared/src/quality.ts:166-170 | That scan points at lines which hold the key at indent 0 |
| Frontmatter.ScanLast | packages/shared/src/quality.ts:166-170 | It points at no line before another one with the same key |
| TagScanner.TokenIs | packages/shared/src/email-template.ts:74 | What leftmost matching of the replaced expression finds at a position: the shortest comment, else a tag of at least one character up to the first `>` |
| TagScanner.ScanToken | packages/shared/src/email-template.ts:93-116 | One turn agrees with leftmost replacement, and once comments are exhausted no terminator is ahead |
| TagScanner.RewriteTagsAndComments | packages/shared/src/email-template.ts:81-119 | For any tag rewriter the scanner produces what leftmost replacement by the expression produces, in at most 4n + 2 character steps |
| TagScanner.NothingRewritten | packages/shared/src/email-template.ts:81-119 | A rewriter that changes no tag changes nothing: no character is lost or added |
| TagScanner.SanitizeWrapperHtml | packages/shared/src/email-template.ts:144-152 | The result is empty or a fixpoint of the pass |
| TagScanner.SettledIsFixed | packages/shared/src/email-template.ts:139-152 | So for any number of passes |
| TagScanner.SettlesWithin | packages/shared/src/email-template.ts:139-152 | What settles within 25 passes is returned as it settled first, anything else gives the empty text |
| TagScanner.SanitizingTwice | packages/shared/src/email-template.ts:144-152 | Sanitizing twice is sanitizing once, and it changes nothing exactly when one pass changes nothing |
| TagScanner.PassOnNothing | packages/shared/src/email-template.ts:121-131 | The pass as built, removals and then the scanner, meets what that needs, for any removals that leave the empty text |
| BusinessTime.WeekPosition | packages/shared/src/review-target.ts:48-50 | The weekday follows from the time since Monday 00:00, before the epoch too, and is a weekend exactly in its last two days |
| BusinessTime.WeekdaysInTurn | packages/shared/src/review-target.ts:48-50 | Weekdays follow each other, and the epoch was a Thursday |
| BusinessTime.AddBusinessDays | packages/shared/src/review-target.ts:59-69 | The result is the weekday instant at which a clock that stands still on weekends reads n days more |
| BusinessTime.BusinessMsBetween | packages/shared/src/review-target.ts:72-83 | The day-by-day sum is that clock's difference, 0 for an empty interval |
| BusinessTime.ClockDetermines | packages/shared/src/review-target.ts:52-58 | On weekdays the clock and the instant determine each other |
| BusinessTime.AddThenCount | packages/shared/src/review-target.ts:59-83 | Counting undoes adding: n days are counted up to n days later, from any start |
| BusinessTime.AddTwice | packages/shared/src/review-target.ts:59-69 | Adding a and then b days is adding a + b |
| BusinessTime.Additive | packages/shared/src/review-target.ts:71-83 | Business time adds up over adjacent intervals and is never negative |
| BusinessTime.PillMovesForward | packages/shared/src/review-target.ts:98-104 | As now advances the pill only goes from due, with days never increasing, to due today to overdue, with days never decreasing |
| BusinessTime.PillAtStart | packages/shared/src/review-target.ts:98-104 | A target of n days reads due in n at its start and overdue by none at its end |
| BusinessTime.DueIff | packages/shared/src/review-target.ts:98-104 | The pill reads due in k if and only if k business days from now, but not k + 1, end by a target on a weekday, and due today if and only if not even one does |
| BusinessTime.OverdueIff | packages/shared/src/review-target.ts:98-104 | On a weekday it reads overdue by k from k business days behind the target up to k + 1 |
| Semver.NumberInjective | packages/shared/src/semver.ts:60-62 | Numeric identifiers without leading zeros differ when their values differ, so equal comparison means equal text |
| Semver.CompareSemver | packages/shared/src/semver.ts:39-70 | The loop over identifiers computes the comparison |
| Semver.CompareIsPrecedence | packages/shared/src/semver.ts:38-70 | The comparison is precedence as section 11 of Semantic Versioning 2.0.0 states it, antisymmetric, and 0 exactly for versions differing in build metadata only |
| Semver.CompareTransitive | packages/shared/src/semver.ts:38-70 | It is transitive, strictly where either step is strict |
| VersionChain.ResolvePredecessor | packages/shared/src/semver.ts:87-95 | The loop finds the predecessor; none for a target that does not parse |
| VersionChain.PredecessorIs | packages/shared/src/semver.ts:82-95 | It is listed, below the target, and no listed version below the target is above it |
| VersionChain.PredecessorIsFirst | packages/shared/src/semver.ts:87-95 | Of entries that differ in build metadata only it is the first listed |
| VersionChain.ChainMeetsEvery | packages/shared/src/semver.ts:82-95 | Going from predecessor to predecessor ends, strictly descends, and meets every listed version below the target, up to build metadata |
| VersionChain.ChainMeetsOnce | packages/shared/src/semver.ts:82-95 | It meets no class of equal versions twice |
| VersionChain.ResolveLatest | packages/shared/src/semver.ts:97-102 | A highest stable entry; none exactly when no entry is stable |
| VersionChain.AssertStrictlyIncreasing | packages/shared/src/semver.ts:72-80 | Accepted exactly when above every existing entry; a refusal names one it is not above |
| VersionChain.PredecessorIsThePrevious | packages/shared/src/semver.ts:72-95 | In a history accepted version by version, the predecessor of each is the one before it |
| Upstream.SuggestionFits | packages/shared/src/upstream-releases.ts:48-93 | The version suggested for the bump between two stable versions is above the first, at most the second, and a bump of the same level |
| Upstream.SuggestionDefaults | packages/shared/src/upstream-releases.ts:85-93 | 1.0.0 without a version, the next patch without a bump |
| Upstream.OneLeadingV | packages/shared/src/upstream-releases.ts:27-32 | White space around a ref and one v in front of it do not matter; the rest is read as a stable version or none |
| Upstream.PickCandidate | packages/shared/src/upstream-releases.ts:65-80 | A highest stable ref above the pin, the first listed of equal ones; none exactly when there is none or the pin is no version |
| Upstream.TrimSlashes | packages/shared/src/upstream-releases.ts:95-103 | The two indices strip all slashes at both ends and nothing else |
| Upstream.TrimmedIs | packages/shared/src/upstream-releases.ts:95-109 | Slashes around a folder do not matter, whatever they surround |
| Upstream.ShowsIff | packages/shared/src/upstream-releases.ts:133-172 | A release shows, pending or skipped, exactly under the stated conditions: a pinned tag must change its files, a registry pin need not |
| Upstream.CoveringProposalQuiets | packages/shared/src/upstream-releases.ts:156-213 | Once a covering proposal's pin is the baseline the state is none |
| Upstream.CoversIffNotAbove | packages/shared/src/upstream-releases.ts:137-213 | For a pending release a proposal of the same source covers it if and only if publishing it silences the release |
| Upstream.SkipHides | packages/shared/src/upstream-releases.ts:149-172 | A release that applies is pending if and only if it is above the skip |
| Upstream.HigherSkipsHide | packages/shared/src/upstream-releases.ts:149-172 | A skipped release stays skipped under every higher skip |
| DraftPlan.Draw | packages/shared/src/quality-draft.ts:218-224 | The partial Fisher-Yates draw picks the right number of different files of the tier, for any random source |
| DraftPlan.DrawIsFair | packages/shared/src/quality-draft.ts:218-224 | Each file still in the draw has an equal share of the random number's range |
| DraftPlan.AnyDraw | packages/shared/src/quality-draft.ts:218-224 | Every choice of files in every order can be drawn |
| DraftPlan.PickTiers | packages/shared/src/quality-draft.ts:208-226 | The slots are filled with distinct files, and no file left out has a better rank than one picked |
| DraftPlan.MarkOthers | packages/shared/src/quality-draft.ts:227-231 | Exactly the other files not picked become skipped |
| DraftPlan.CapPlan | packages/shared/src/quality-draft.ts:205-233 | Exactly min(25, queued) files stay queued, none is lost, SKILL.md keeps its slot, only other queued files change, and none left out has a better rank than one kept |
| DraftPlan.PlanKept | packages/shared/src/quality-draft.ts:205-233 | Why: any pick with those properties leaves SKILL.md's slot plus the pick |
| PluginGroups.Targets | packages/shared/src/plugin-marketplace.ts:297-298 | A skill goes to each of its known categories once and nowhere else, or to the general plugin alone when it has none |
| PluginGroups.FillBuckets | packages/shared/src/plugin-marketplace.ts:294-304 | Each bucket holds exactly the skills that go there, in order |
| PluginGroups.PlaceBucket | packages/shared/src/plugin-marketplace.ts:309-320 | The first skill in a directory is a member, each later one a collision |
| PluginGroups.NothingLost | packages/shared/src/plugin-marketplace.ts:306-320 | In a plugin each skill is exactly one member or one reported collision, no two members share a directory, and a collision's winner is a member in the directory it names |
| PluginGroups.WinnersAreEarlier | packages/shared/src/plugin-marketplace.ts:286-287 | A collision's winner comes before what it keeps out |
| PluginGroups.GroupSkillsIntoPlugins | packages/shared/src/plugin-marketplace.ts:289-335 | One plugin for each non-empty bucket, with its members and its collisions, and no others |
| PluginGroups.PlacedWhere | packages/shared/src/plugin-marketplace.ts:308-320 | A skill is a member where no earlier one claims its directory, and reported where one does |
| PluginGroups.OwnIsShadowedIff | packages/shared/src/plugin-marketplace.ts:268-320 | In any bucket one of a namespace's own skills is left out, and reported, if and only if an earlier skill is shared from another namespace whose slug, a dash and the skill's slug make up the own slug |
| PluginGroups.SharedMayShadowOwn | packages/shared/src/plugin-marketplace.ts:268-278 | A bucket in which that happens, against the comment's promise |
| PluginLayout.PlanPluginLayout | packages/shared/src/plugin-marketplace.ts:550-572 | Components go to the plugin root, everything else under the member's directory |
| PluginLayout.MoveIs | packages/shared/src/plugin-marketplace.ts:550-572 | Every file with a name is moved, to its one destination, and nothing else is |
| PluginLayout.ComponentPaths | packages/shared/src/plugin-marketplace.ts:511-534 | Components are hooks.json, mcp.json and lsp.json at the root and what stands below commands/ and agents/ |
| PluginLayout.SamePath | packages/shared/src/plugin-marketplace.ts:552-558 | A leading slash or dot and slash do not matter |
| PluginLayout.ContentIsNoComponent | packages/shared/src/plugin-marketplace.ts:530-535 | Skill content is never taken for a component |
| PluginLayout.ContentPathDetermines | packages/shared/src/plugin-marketplace.ts:550-572 | A content path determines the member and the file |
| PluginLayout.MembersMeetInComponents | packages/shared/src/plugin-marketplace.ts:537-572 | Two members in different directories only ever share component paths |
| PluginLayout.MergeEntries | packages/shared/src/plugin-marketplace.ts:603-610 | New entries are added, list entries concatenated, others keep the first; exactly the clashes are reported |
| PluginLayout.MergeComponentJson | packages/shared/src/plugin-marketplace.ts:592-618 | Without a base, or with a null one, the incoming value; otherwise key by key over both objects what the merged value is, and exactly which keys and entries are reported dropped |
| PluginLayout.FirstStays | packages/shared/src/plugin-marketplace.ts:583-591 | Whatever the first member brought is still there: scalars equal, lists as a prefix, objects entry by entry |
| TextIndex.IndexText | packages/shared/src/ai-prereview-run.ts:262-282 | The scan yields the emitted characters with the line each stands for |
| TextIndex.ScanIsCollapse | packages/shared/src/ai-prereview-run.ts:240-243 | What it emits from the start, or from any word on, is the collapsed text there |
| TextIndex.IndexRefines | packages/shared/src/ai-prereview-run.ts:262-282 | The index is exactly the collapsed text, with one line for each character, never decreasing |
| TextIndex.OccursIff | packages/shared/src/ai-prereview-run.ts:254-291 | The collapsed excerpt stands at a place of the index if and only if it occurs in the source at the index's place |
| TextIndex.FoundAt | packages/shared/src/ai-prereview-run.ts:286-288 | The first hit in the index is the first occurrence in the source |
| TextIndex.Locate | packages/shared/src/ai-prereview-run.ts:284-289 | One plus the newlines before the first occurrence; nothing exactly when the collapsed excerpt is empty or does not occur |
| PrereviewInput.RedactedHasNoSecret | packages/shared/src/ai-prereview-run.ts:70-75 | No line of a redacted text is secret, and the other lines are untouched, as many as before |
| PrereviewInput.Cut | packages/shared/src/ai-prereview-run.ts:61-68 | A prefix within the cap, whole if it fits, at most one unit short, and not ending in half a surrogate pair |
| PrereviewInput.SelectPrereviewInput | packages/shared/src/ai-prereview-run.ts:104-119 | One coverage entry for each candidate in order: sent exactly while the caps leave room, as its redacted text cut to what is left, truncated exactly when cut; else skipped |
| PrereviewInput.SkipMeansFull | packages/shared/src/ai-prereview-run.ts:104-119 | A candidate is skipped only when 25 files are sent or nothing is left of the total, and no text sent is longer than 100000 units |
| PrereviewInput.NothingSecretSent | packages/shared/src/ai-prereview-run.ts:104-119 | Every text sent is the start of a candidate's text in which no line is secret |
| RiskText.OneMoreChar | packages/shared/src/content-risk.ts:83-85 | One more character is one more line exactly when it is a break that does not complete a CRLF |
| RiskText.NormalizeForMatching | packages/shared/src/content-risk.ts:94-128 | One line entry for each output unit, the line of its source character, CRLF, LF and CR counted as one break each |
| RiskText.LineMapOrdered | packages/shared/src/content-risk.ts:89-128 | The line map never decreases and stays within the text's lines |
| RiskText.BlanksApartIff | packages/shared/src/content-risk.ts:89-128 | The output starts with no blank and has no two in a row if and only if no character brings one where none can stand: a fold with two in a row, one that starts with a blank at the start or behind a blank, or white space behind a fold that ends with one |
| RiskText.OutputBlanksApart | packages/shared/src/content-risk.ts:89-93 | In particular for a text none of whose kept characters folds to a text with a blank |
| RiskText.DiaeresisCrowds | packages/shared/src/content-risk.ts:121-131 | A text for which the single blanks the phrase patterns count on fail: an a, a blank and a diaeresis |

## Left out

- Unicode: NFC and NFKC, code points above U+FFFF, `\p{L}` beyond ASCII, and locale collation. Characters are Dafny characters, `localeCompare` and path order are the order the lists come in, and folding and hidden characters are parameters.
- PostgreSQL: stemming and tsquery parsing (fragments are opaque atoms), the SQL texts, and everything a statement does beyond its effect on the rows modelled. One fold runs at a time, as in the housekeeping leader.
- Cryptography: a searcher hash is a free term of salt and user; encryption opens with its own key only.
- SearchCompose.ComposeSearch: the match modes and their SQL are left out.
- SearchSynonyms.TypedRowsFound: takes from PostgreSQL only that fragments and normalized forms are made of the same lexemes, and that words written one blank apart have a lexeme only if one of them has.
- SearchCandidates.SynonymCandidates: gives the candidates as a set, because their order reaches only an SQL parameter.
- JavaScript number precision: versions, hits and times are mathematical integers (the diff table is uint32, as in the code).
- Semver: the grammar `SEMVER_RE`; versions enter parsed, an entry that does not parse as `None`. An unparsable stored release met by a skip or a covering proposal makes `compareSemver` throw; here it covers nothing.
- VersionChain.ResolveLatest: asks for valid entries; `channelOf` treats an unparsable entry as beta, so the code filters it out before comparing.
- VersionChain.AssertStrictlyIncreasing: an existing entry that does not parse makes the comparison throw and is an own verdict here.
- Frontmatter.ParseFrontmatterYaml: keys are plain map keys, so a key `__proto__` is one as well; a number stays its digits.
- FrontmatterPrint.PrintedIsRead: quoted keys, comments, blank lines between keys and folded blocks are not written, only read.
- TagScanner.PassOnNothing: takes `sanitizeTag` and the two tag-removal expressions of `sanitizePass` as any rewriter and any function, so nothing is claimed about what HTML they leave.
- `planDraft`: the classification of paths, the two sorts and the generator `seededRandom`, which is any function into [0, 1).
- `renderDigest`: the wording and markup of lines, and the first sort; rows come oldest first. The date of a line is its last row's.
- `groupSkillsIntoPlugins`: the sort of members and plugins and the display names; members come in their order.
- `planPluginLayout`: the component flags, which repeat what kinds of component were moved.
- `foldSearchGapDays`: the counts it returns and the pruning of decided gaps; `recordGapHit` takes the mode and normalized query it computes as inputs.
- `ensureFreshAccessToken`: error texts and time stamps, and the default of 3600 seconds, which enters as the number.
- DigestSweep.OneDigestASlotEver: does not cover a process that dies between sending a digest and stamping its slot. Which rows a digest takes up or drops is left out.
- RiskText.BlanksApartIff: takes for granted that a kept character folds to something, as under NFKC.
- `mergeComponentJson`: prototype-inherited keys; an object here has exactly its own keys.
- `selectPrereviewInput`: decoding, the sort by priority, out-of-scope entries, paths and allowed tools.
- DigestClock.InstantIsFirst: assumes whole-second offsets between -12 h and +14 h and at most one change within 14 h of the requested time; zones with two changes that close are not covered.
- TokenRefresh.StoredTokenAccepted: does not cover a process that dies between a token exchange and its commit, or a response lost after a rotation, which the code does not claim either.
- DeprecationHint.LastWriteWins: for files whose frontmatter holds no marker and whose lines survive their own line break, and for inputs as the callers pass them (a skill reference, a note with LF line ends, a URL without blanks or angle brackets).
- Upstream.CoversIffNotAbove: covers releases; a proposal that re-pins a branch by name is left out.
- `bumpLevel` and `suggestUpstreamVersion` on texts that do not parse, `classifyPin`, notices and labels; settings, limits and notification texts throughout: they follow from one branch.
- HTTP, git, object storage, authentication, rendering and the web packages.
