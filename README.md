# Course search: query extraction and exam retrieval

A Dafny model of the deterministic core of the course-search API route
(`src/app/api/search/route.ts`). It covers four parts:

- **Prefix tables.** The static `prefixToDepartment` table (61 course-code prefixes, each
  mapped to a department name) and the reverse `departmentToPrefixes` map. The route builds
  that map with a loop over the table's entries.
- **`extractCourseInfo`.** It reads a free-text prompt into five duplicate-free lists:
  course codes, departments, prefixes, resource types and all search terms. It works in
  seven passes:
  - a case-insensitive course-code pattern;
  - bare course numbers;
  - underscore and no-space variants of spaced codes;
  - department names found in the lower-cased prompt;
  - word-bounded prefixes;
  - a table of subject synonyms;
  - eleven resource-type words.
- **Course-id matching in `searchCourseExams`.** Every extracted code is stripped to
  lower-case ASCII letters and digits. A course document is kept when one of these codes
  equals its normalised id, ends it, or occurs inside it.
- **Projection, sort and cap.** Each exam of a matched course becomes a `CourseResource`.
  Missing fields default to the empty string, and the resource type falls back to the one in
  the exam's metadata. The resources are sorted by year, newest first, with a stable sort,
  and the first 15 are returned.

Files:

- `wrappers.dfy`: `Option` and `Result`.
- `seqs.dfy`: the array idioms the route uses, defined on sequences: `map`, `filter`,
  pushing several values per element, and `Array.from(new Set(...))`.
- `text.dfy`: ASCII lower-casing, `includes`, `endsWith`, the ECMAScript whitespace class,
  `replace(/\s+/g, r)` and `trim`.
- `patterns.dfy`: the two match-all regular expressions and the word-bounded,
  case-insensitive `RegExp.test`, written as explicit scanners. Each scanner is proved sound
  and complete against a declarative description of one match.
- `tables.dfy`: the JavaScript object model (property order, and a later duplicate key
  overwriting an earlier one), the three literal tables, and the `departmentToPrefixes` loop.
- `extract.dfy`: `extractCourseInfo`. `CourseInfoOf` gives the five lists as functions of
  the prompt. The method `ExtractCourseInfo` runs the route's push loops, one method per
  pass, and is proved equal to `CourseInfoOf`.
- `search.dfy`: `searchCourseExams`, with the document store replaced by input data.

Integers play no part. Strings are sequences of Dafny characters, which are Unicode scalar
values; the source's strings are sequences of UTF-16 code units (see "## Left out").

## Model

| member | source | states |
|---|---|---|
| Tables.ObjectLiteral | src/app/api/search/route.ts:40-102 | an object literal has distinct keys, holds only entries that were written, and has every written key |
| Tables.Get | src/app/api/search/route.ts:139-140 | a property read returns a value stored under that key, and is undefined exactly when the key is absent |
| Tables.GetOfMember | src/app/api/search/route.ts:204-205 | reading the key of a stored entry yields that entry's value |
| Tables.Put | src/app/api/search/route.ts:40-102 | assigning a property keeps keys distinct, stores the new entry, drops only the old entry of the same key, and keeps every other entry |
| Tables.GetOfKey | src/app/api/search/route.ts:139-140 | with distinct keys, reading a key yields the value of any entry with that key |
| Tables.TruthyValue | src/app/api/search/route.ts:139-140 | `if (o[k]) push(o[k])` pushes at most one value, only a value stored under k, and exactly that value when keys are distinct and values non-empty |
| Tables.IndexOfKey | src/app/api/search/route.ts:139 | the lookup finds a position holding the key, or the key is at no position |
| Tables.DepartmentToPrefixes | src/app/api/search/route.ts:105-111 | the loop's map has a key exactly for each department value of the table, and lists under it the table's prefixes with that value, in table order |
| Tables.KeyListedUnderValue | src/app/api/search/route.ts:106-110 | every prefix is listed under its own department |
| Tables.ListedKeyMapsBack | src/app/api/search/route.ts:106-110 | every prefix listed under a department maps back to that department in the table |
| Tables.FilterKeepsDistinctKeys | src/app/api/search/route.ts:106-110 | the entries the loop visits for one department have distinct keys |
| Tables.KeysWithValueNoDups | src/app/api/search/route.ts:105-111 | no prefix list in the reverse map holds a prefix twice |
| Tables.DepartmentsNonEmpty | src/app/api/search/route.ts:40-102 | every department name in the table is non-empty, so the truthiness test at line 139 and line 204 means "the key is present" |
| Tables.SubjectNamesNonEmpty | src/app/api/search/route.ts:186-199 | every subject synonym is non-empty |
| Tables.ResourceTypeTermsNonEmpty | src/app/api/search/route.ts:212 | every resource-type word is non-empty |
| Text.Lower | src/app/api/search/route.ts:168 | the ASCII-only model of `toLowerCase`: it keeps the length, lower-cases each ASCII capital and leaves every other character as it is |
| Text.ReplaceRemovesWhitespace | src/app/api/search/route.ts:158 | replacing whitespace runs by a whitespace-free string, such as `_`, leaves no whitespace |
| Text.ReplaceByNothingDropsWhitespace | src/app/api/search/route.ts:159 | `replace(/\s+/g, '')` deletes exactly the whitespace characters |
| Text.BeforeFirstSpace | src/app/api/search/route.ts:136 | `split(' ')[0]` is the prefix of the string up to, not including, its first space |
| Text.CollapseSingleSpaced | src/app/api/search/route.ts:131 | `replace(/\s+/g, ' ')` leaves no whitespace except single spaces that never touch each other |
| Text.CollapseKeepsText | src/app/api/search/route.ts:131 | collapsing whitespace runs keeps every non-whitespace character in order |
| Text.TrimSlice | src/app/api/search/route.ts:131 | `trim` returns the slice between the first and last non-whitespace characters |
| Text.TrimKeepsText | src/app/api/search/route.ts:131 | `trim` keeps every non-whitespace character in order |
| Patterns.CodeMatchAtSound | src/app/api/search/route.ts:128 | a match of `/\b[A-Z]{2,6}\s*\d+[A-Z]?\b/i` found at a position is a token of that pattern |
| Patterns.CodeMatchAtComplete | src/app/api/search/route.ts:128 | every token of the course-code pattern at a position is the match the scanner finds there |
| Patterns.NumberMatchAtSound | src/app/api/search/route.ts:146 | a match of `/\b\d+[A-Z]?\b/` found at a position is a token of that pattern |
| Patterns.NumberMatchAtComplete | src/app/api/search/route.ts:146 | every token of the number pattern at a position is the match the scanner finds there |
| Patterns.CodeMatchesSound | src/app/api/search/route.ts:128 | every string `match` returns for the course-code pattern is the text of a token |
| Patterns.CodeMatchesComplete | src/app/api/search/route.ts:128 | every course-code token in the prompt is among the matches `match` returns |
| Patterns.NumberMatchesSound | src/app/api/search/route.ts:146 | every string `match` returns for the number pattern is the text of a token |
| Patterns.NumberMatchesComplete | src/app/api/search/route.ts:146 | every number token in the prompt is among the matches `match` returns |
| Patterns.WordTestExactly | src/app/api/search/route.ts:177-178 | `new RegExp('\\b' + prefix + '\\b', 'gi').test(prompt)` holds exactly when the prefix occurs, ignoring ASCII case, between word boundaries |
| Extract.DepartmentOf | src/app/api/search/route.ts:139-140 | the case-sensitive lookup of a matched code's prefix yields at most one department, only one the table maps that prefix to, and exactly that department when the prefix is a key |
| Extract.CourseCodeDepartment | src/app/api/search/route.ts:136-141 | a course-code match whose prefix is a key of the table puts that key's department among the returned departments |
| Extract.ExtractCourseInfo | src/app/api/search/route.ts:114-227 | the route's push loops produce exactly `CourseInfoOf(prompt)`, and all five lists are duplicate-free |
| Extract.CourseCodePass | src/app/api/search/route.ts:128-143 | the first loop pushes the normalised matches, each match's department if its prefix is a key, and each match's text before the first space |
| Extract.CourseNumberPass | src/app/api/search/route.ts:146-152 | the second loop pushes every bare course number, in prompt order |
| Extract.VariantPass | src/app/api/search/route.ts:155-162 | the variant loop pushes the underscore and no-space forms of each spaced code, in order |
| Extract.DepartmentNamePass | src/app/api/search/route.ts:167-173 | the department loop pushes the department, the prefix and the department for each table entry whose department occurs in the lower-cased prompt |
| Extract.PrefixPass | src/app/api/search/route.ts:176-183 | the prefix loop pushes the prefix, its department and the prefix for each key found word-bounded in the prompt |
| Extract.SubjectPass | src/app/api/search/route.ts:201-209 | the synonym loop pushes the prefix, the prefix's department when it has one, and the synonym for each synonym in the lower-cased prompt |
| Extract.ResourceTypePass | src/app/api/search/route.ts:212-218 | the resource-type loop pushes each of the eleven words that occurs in the lower-cased prompt |
| Extract.EmptyPromptHasNoMatches | src/app/api/search/route.ts:128-152 | neither pattern matches the empty prompt |
| Extract.EmptyPromptNamesNoDepartment | src/app/api/search/route.ts:167-173 | the empty prompt contains no department name |
| Extract.EmptyPromptCitesNoPrefix | src/app/api/search/route.ts:176-183 | the empty prompt contains no prefix |
| Extract.EmptyPromptNamesNoSubject | src/app/api/search/route.ts:201-218 | the empty prompt contains no synonym and no resource-type word |
| Extract.EmptyPromptYieldsNothing | src/app/api/search/route.ts:220-226 | all five lists are empty for the empty prompt |
| Extract.CodesAndTypesAreTerms | src/app/api/search/route.ts:132-133 | every course code and every resource type is also a search term |
| Extract.SpacedCodeIsNoVariant | src/app/api/search/route.ts:158-160 | no generated variant contains a space |
| Extract.VariantsPresent | src/app/api/search/route.ts:155-164 | for every course code containing a space, its underscore-joined and space-removed forms are course codes and search terms |
| Extract.DepartmentsFromTable | src/app/api/search/route.ts:139-140 | every returned department is a department of the prefix table |
| Extract.ResourceTypesExactly | src/app/api/search/route.ts:212-218 | a word is a returned resource type exactly when it is one of the eleven words and occurs in the lower-cased prompt |
| Extract.NormalizedShape | src/app/api/search/route.ts:131 | a normalised course code has no leading or trailing whitespace, only single spaces, and the match's non-whitespace characters |
| Extract.NormalizedCode | src/app/api/search/route.ts:128-131 | a normalised course-code match is its letters, then one space exactly when whitespace separated the letters from the digits, then its digits and final letter |
| Extract.NormalizedCodePrefix | src/app/api/search/route.ts:136 | the prefix pushed for a course-code match is its letters when whitespace followed them, and the whole match (such as "CS61A") otherwise |
| Text.ReplaceOneRun | src/app/api/search/route.ts:131 | a run of whitespace between text without whitespace becomes exactly one replacement string, the text on both sides kept |
| Text.CollapseAndTrim | src/app/api/search/route.ts:131 | `replace(/\s+/g, ' ').trim()` of two non-empty words around a whitespace run is the words joined by one space, or by nothing when there was no run |
| Text.ReplaceAfterText | src/app/api/search/route.ts:131 | a replacement keeps text without whitespace at the front unchanged |
| Text.BeforeSpaceJoined | src/app/api/search/route.ts:136 | `split(' ')[0]` of two words joined by a space is the first word, and of two words joined by nothing is both |
| Text.TrimOfTrimmed | src/app/api/search/route.ts:131 | `trim` leaves a string without whitespace at either end unchanged |
| Text.BeforeFirstSpaceOf | src/app/api/search/route.ts:136 | `split(' ')[0]` of text without a space, followed by a space or nothing, is that text |
| Extract.CourseCodeFound | src/app/api/search/route.ts:128-137 | every course-code token of the prompt gives a course code, a search term and a prefix |
| Extract.CourseNumberFound | src/app/api/search/route.ts:146-150 | every number token of the prompt is a course code and a search term |
| Extract.CodeFoundIsListed | src/app/api/search/route.ts:163-164 | codes pushed by the first two passes survive the variant merge and deduplication |
| Extract.DepartmentNameFound | src/app/api/search/route.ts:167-172 | a department whose name occurs in the prompt, ignoring ASCII case, is returned with its prefix and as a search term |
| Extract.PrefixWordFound | src/app/api/search/route.ts:176-182 | a prefix found as a whole word is returned with its department and as a search term |
| Extract.SubjectNameFound | src/app/api/search/route.ts:201-208 | a synonym occurring in the lower-cased prompt yields its prefix and is a search term |
| Search.NormalizeCode | src/app/api/search/route.ts:333-335 | a normalised code holds only lower-case ASCII letters and digits and is no longer than the input |
| Search.NormalizeCodeIdempotent | src/app/api/search/route.ts:333-335 | normalising twice is normalising once |
| Search.KeepsNormalized | src/app/api/search/route.ts:344 | a string of lower-case letters and digits is its own normal form |
| Search.CourseIdMatchesIffContains | src/app/api/search/route.ts:343-349 | a course id matches exactly when some normalised code occurs in its normalised form; the equality and `endsWith` tests add nothing |
| Search.MatchedCoursesExactly | src/app/api/search/route.ts:343-356 | the filter keeps exactly the matching course documents, in input order |
| Search.Project | src/app/api/search/route.ts:370-383 | each resource takes its ids and path from the exam and the course, has empty name, department and school, defaults missing fields to "", falls back to the metadata resource type, copies present metadata and defaults missing metadata to an empty map |
| Search.ProjectAll | src/app/api/search/route.ts:368-384 | one resource per exam, in exam order |
| Search.CollectedAreProjections | src/app/api/search/route.ts:364-385 | every collected resource is the projection of an exam of a matched course |
| Search.CollectResources | src/app/api/search/route.ts:364-385 | the nested collection loops produce the projections of all exams of all matched courses, in order |
| Search.StrLessIrreflexive | src/app/api/search/route.ts:397 | no year string sorts before itself |
| Search.StrLessTransitive | src/app/api/search/route.ts:397 | the year order is transitive |
| Search.StrLessTotal | src/app/api/search/route.ts:397 | any two distinct year strings are ordered one way |
| Search.StrLessIrreflexiveAsym | src/app/api/search/route.ts:397 | the year order is asymmetric |
| Search.Insert | src/app/api/search/route.ts:397 | inserting a resource adds exactly that resource |
| Search.InsertSorted | src/app/api/search/route.ts:397 | inserting into a newest-first list keeps it newest first |
| Search.SortByYear | src/app/api/search/route.ts:397 | the sort is a permutation |
| Search.SortByYearSorted | src/app/api/search/route.ts:397 | the sorted years never increase |
| Search.InsertAfterSameYear | src/app/api/search/route.ts:397 | an inserted resource goes after every resource of the same year |
| Search.SortByYearStable | src/app/api/search/route.ts:397 | the sort is stable: resources of one year keep their order |
| Search.Take | src/app/api/search/route.ts:399 | `slice(0, n)` is the prefix of length min(n, length) |
| Search.TakeSorted | src/app/api/search/route.ts:399 | a prefix of a newest-first list is newest first |
| Search.TakeSubMultiset | src/app/api/search/route.ts:399 | a prefix holds nothing the list does not |
| Search.SearchCourseExams | src/app/api/search/route.ts:300-400 | the search fails exactly when the store is unreachable; otherwise it returns at most 15 resources, newest first, all drawn from the exams of the matched courses |
| Seqs.MapSeqMember | src/app/api/search/route.ts:333-335 | a value is in a mapped array exactly when it is the image of an element |
| Seqs.FlatMapMember | src/app/api/search/route.ts:155-162 | a value is pushed by a per-element loop exactly when it is among the pushes of some element |
| Seqs.FilterMember | src/app/api/search/route.ts:343-356 | a value is in a filtered array exactly when it is in the array and passes the test |
| Seqs.FilterAppend | src/app/api/search/route.ts:343-356 | filtering distributes over concatenation, so kept elements keep their order |
| Seqs.DedupOfNoDups | src/app/api/search/route.ts:220-226 | `Array.from(new Set(xs))` returns a duplicate-free array unchanged |
| Seqs.Dedup | src/app/api/search/route.ts:163-164 | `Array.from(new Set(xs))` has no duplicates and holds exactly the elements of `xs` |

## Left out

- Document store: the connectivity probe, the `courses` read and the per-course `exams` reads
  are network I/O. The model takes the fetched courses and their exams as input. A failed
  probe becomes the boolean `storeReachable` and the result `Failure(StoreUnavailable)`.
  The error message and the store's own exceptions are not modelled.
- `analyzeWithAI` is not part of this model: it calls an external language-model service
  and parses its reply without validation.
- The `POST` handler is not part of this model: it is HTTP plumbing and status codes.
- Logging and timing (`console.*`) have no effect on the results and are not modelled.
- `searchTerms` is accepted by `SearchCourseExams` but ignored, as in the route, where it
  is only logged.
- Text.Lower: `toLowerCase` is modelled on ASCII letters only. Full Unicode case mapping
  is not modelled. The regular expressions have no `u` flag, so their case-insensitive
  matching is ASCII-only in the source as well, and that part is exact.
- Search.StrLess: `localeCompare` is modelled as code-point lexicographic order on the year
  strings. Locale collation is not modelled. For the digit strings years are made of, the
  two orders agree.
- Search.SortByYear: the route sorts its array in place with the engine's stable sort. The
  model is a functional stable insertion sort on a sequence, so in-place update and array
  aliasing are not captured.
- Field values other than strings in exam records are not modelled. Non-empty non-string
  values of `semester`, `year`, `resource_type` or `resource_url`, and a `metadata` value
  that is not an object, cannot be expressed. The `metadata` object is reduced to its
  `resource_type` field.
- Extract.PrefixPass: the department pushed at line 180 is read as `prefixToDepartment[prefix]`.
  In the model it is the value of the entry the loop visits. The two agree, because the
  table's keys are distinct (`Tables.ObjectLiteral`, `Tables.GetOfMember`).
- Ranking is by year only, as in the route. The route has no exact-code priority and no
  search-term priority, matches by course id only (no subject-and-number and no metadata
  matching), and does not deduplicate resources by id; the model does none of these either.
- Text.IsWhitespace: characters are Unicode scalar values, not UTF-16 code units. A lone
  surrogate, legal in a JavaScript string, cannot be written, and an astral character is one
  character in the model but two code units to the route's regular expressions, which have
  no `u` flag. The difference cannot change a result: every pattern, table key, department
  name and vocabulary word is ASCII, and no whitespace character is astral or a surrogate.
