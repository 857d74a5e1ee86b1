/**
 * `extractCourseInfo`: the deterministic reading of a search prompt into course codes,
 * departments, course-code prefixes, resource types and the union of all search terms.
 *
 * `CourseInfoOf` states what each of the five lists holds, pass by pass, as the
 * extractor builds them; `ExtractCourseInfo` builds them the way the route does, pushing
 * onto arrays inside one loop per pass, and is proved to produce `CourseInfoOf`. The
 * lemmas after it state what the lists mean in terms of the prompt and the tables.
 */
module Extract {
  import opened Wrappers
  import opened Seqs
  import opened Text
  import opened Patterns
  import opened Tables

  datatype CourseInfo = CourseInfo(
    courseCodes: seq<string>,
    departments: seq<string>,
    prefixes: seq<string>,
    resourceTypes: seq<string>,
    allTerms: seq<string>)

  /** `match.replace(/\s+/g, ' ').trim()` */
  function NormalizeMatch(m: string): string {
    Trim(ReplaceWhitespaceRuns(m, " "))
  }

  /** The prefix pushed for a course-code match: its normalised text up to the first space. */
  function MatchPrefix(m: string): string {
    BeforeFirstSpace(NormalizeMatch(m))
  }

  /** What `if (prefixToDepartment[prefix]) departments.push(prefixToDepartment[prefix])` pushes. */
  function DepartmentOf(prefix: string): (r: seq<string>)
    ensures |r| <= 1
    ensures forall d :: d in r ==> Entry(prefix, d) in PrefixToDepartment
    ensures forall d :: Entry(prefix, d) in PrefixToDepartment ==> r == [d]
  {
    DepartmentsNonEmpty();
    TruthyValue(PrefixToDepartment, prefix)
  }

  function MatchDepartment(m: string): seq<string> {
    DepartmentOf(MatchPrefix(m))
  }

  /** The underscore-joined and the space-removed variant of a code that contains a space. */
  function SpaceVariants(code: string): seq<string> {
    if ' ' in code then [ReplaceWhitespaceRuns(code, "_"), ReplaceWhitespaceRuns(code, "")] else []
  }

  /** The lowercased prompt contains the lowercased department name. */
  predicate DepartmentNamed(lowerPrompt: string, e: Entry) {
    Includes(lowerPrompt, Lower(e.value))
  }

  /** The prefix occurs in the prompt as a whole word, ignoring case. */
  predicate PrefixCited(prompt: string, e: Entry) {
    WordTest(prompt, e.key, 0)
  }

  /** The lowercased prompt contains the subject name. */
  predicate SubjectNamed(lowerPrompt: string, e: Entry) {
    Includes(lowerPrompt, e.key)
  }

  function SubjectDepartment(e: Entry): seq<string> {
    DepartmentOf(e.value)
  }

  /** The lowercased prompt contains the resource-type word. */
  predicate TermNamed(lowerPrompt: string, t: string) {
    Includes(lowerPrompt, t)
  }

  // The passes of the extractor, each as the list of what it pushes.

  /** `courseCodes` (and `allTerms`) after the course-code and course-number passes. */
  function CodesFound(prompt: string): seq<string> {
    MapSeq(CodeMatches(prompt), NormalizeMatch) + NumberMatches(prompt)
  }

  /** `courseCodes` after the variant expansion, which also is `allTerms` at that point. */
  function CodesWithVariants(prompt: string): seq<string> {
    Dedup(CodesFound(prompt) + FlatMap(CodesFound(prompt), SpaceVariants))
  }

  function NamedDepartments(prompt: string): seq<Entry> {
    Filter(Lower(prompt), PrefixToDepartment, DepartmentNamed)
  }

  function CitedPrefixes(prompt: string): seq<Entry> {
    Filter(prompt, PrefixToDepartment, PrefixCited)
  }

  function NamedSubjects(prompt: string): seq<Entry> {
    Filter(Lower(prompt), SubjectVariations, SubjectNamed)
  }

  function NamedResourceTypes(prompt: string): seq<string> {
    Filter(Lower(prompt), ResourceTypeTerms, TermNamed)
  }

  /** The five lists `extractCourseInfo(prompt)` returns. */
  function CourseInfoOf(prompt: string): CourseInfo {
    var cm := CodeMatches(prompt);
    CourseInfo(
      courseCodes := Dedup(CodesWithVariants(prompt)),
      departments := Dedup(FlatMap(cm, MatchDepartment) + MapSeq(NamedDepartments(prompt), Value)
                           + MapSeq(CitedPrefixes(prompt), Value) + FlatMap(NamedSubjects(prompt), SubjectDepartment)),
      prefixes := Dedup(MapSeq(cm, MatchPrefix) + MapSeq(NamedDepartments(prompt), Key)
                        + MapSeq(CitedPrefixes(prompt), Key) + MapSeq(NamedSubjects(prompt), Value)),
      resourceTypes := Dedup(NamedResourceTypes(prompt)),
      allTerms := Dedup(CodesWithVariants(prompt) + MapSeq(NamedDepartments(prompt), Value)
                        + MapSeq(CitedPrefixes(prompt), Key) + MapSeq(NamedSubjects(prompt), Key)
                        + NamedResourceTypes(prompt)))
  }

  /** `extractCourseInfo(prompt)`: every list it returns is free of duplicates. */
  method ExtractCourseInfo(prompt: string) returns (info: CourseInfo)
    ensures info == CourseInfoOf(prompt)
    ensures NoDups(info.courseCodes) && NoDups(info.departments) && NoDups(info.prefixes)
    ensures NoDups(info.resourceTypes) && NoDups(info.allTerms)
  {
    var courseCodes, departments, prefixes := CourseCodePass(prompt);
    var allTerms := courseCodes;
    var numbers := CourseNumberPass(prompt);
    courseCodes, allTerms := courseCodes + numbers, allTerms + numbers;
    var extraVariants := VariantPass(courseCodes);
    courseCodes := Dedup(courseCodes + extraVariants);
    allTerms := Dedup(allTerms + extraVariants);
    var pushedDepartments, pushedPrefixes, pushedTerms := DepartmentNamePass(prompt, PrefixToDepartment);
    departments, prefixes, allTerms := departments + pushedDepartments, prefixes + pushedPrefixes, allTerms + pushedTerms;
    pushedDepartments, pushedPrefixes, pushedTerms := PrefixPass(prompt, PrefixToDepartment);
    departments, prefixes, allTerms := departments + pushedDepartments, prefixes + pushedPrefixes, allTerms + pushedTerms;
    pushedDepartments, pushedPrefixes, pushedTerms := SubjectPass(prompt, SubjectVariations);
    departments, prefixes, allTerms := departments + pushedDepartments, prefixes + pushedPrefixes, allTerms + pushedTerms;
    var resourceTypes := ResourceTypePass(prompt);
    allTerms := allTerms + resourceTypes;
    info := CourseInfo(Dedup(courseCodes), Dedup(departments), Dedup(prefixes), Dedup(resourceTypes), Dedup(allTerms));
  }

  /** The course-code pass: each match, normalised, its prefix, and the prefix's department if it has one. */
  method CourseCodePass(prompt: string) returns (courseCodes: seq<string>, departments: seq<string>, prefixes: seq<string>)
    ensures courseCodes == MapSeq(CodeMatches(prompt), NormalizeMatch)
    ensures departments == FlatMap(CodeMatches(prompt), MatchDepartment)
    ensures prefixes == MapSeq(CodeMatches(prompt), MatchPrefix)
  {
    courseCodes, departments, prefixes := [], [], [];
    var courseMatches := CodeMatches(prompt);
    for i := 0 to |courseMatches|
      invariant courseCodes == MapSeq(courseMatches[..i], NormalizeMatch)
      invariant prefixes == MapSeq(courseMatches[..i], MatchPrefix)
      invariant departments == FlatMap(courseMatches[..i], MatchDepartment)
    {
      var normalized := NormalizeMatch(courseMatches[i]);
      courseCodes := courseCodes + [normalized];
      var prefix := BeforeFirstSpace(normalized);
      prefixes := prefixes + [prefix];
      var department := Get(PrefixToDepartment, prefix);
      if department.Some? && department.value != "" {
        departments := departments + [department.value];
      }
      MapSeqStep(courseMatches, i, NormalizeMatch);
      MapSeqStep(courseMatches, i, MatchPrefix);
      FlatMapStep(courseMatches, i, MatchDepartment);
    }
    assert courseMatches[..|courseMatches|] == courseMatches;
  }

  /** The course-number pass: every match of the number pattern, in order. */
  method CourseNumberPass(prompt: string) returns (numbers: seq<string>)
    ensures numbers == NumberMatches(prompt)
  {
    numbers := [];
    var numberMatches := NumberMatches(prompt);
    for i := 0 to |numberMatches|
      invariant numbers == numberMatches[..i]
    {
      numbers := numbers + [numberMatches[i]];
    }
  }

  /** The variants of every code that contains a space. */
  method VariantPass(courseCodes: seq<string>) returns (extraVariants: seq<string>)
    ensures extraVariants == FlatMap(courseCodes, SpaceVariants)
  {
    extraVariants := [];
    for i := 0 to |courseCodes|
      invariant extraVariants == FlatMap(courseCodes[..i], SpaceVariants)
    {
      var code := courseCodes[i];
      if ' ' in code {
        var underscore := ReplaceWhitespaceRuns(code, "_");
        var nospace := ReplaceWhitespaceRuns(code, "");
        extraVariants := extraVariants + [underscore, nospace];
      }
      FlatMapStep(courseCodes, i, SpaceVariants);
    }
    assert courseCodes[..|courseCodes|] == courseCodes;
  }

  /** The department-name pass over `prefixToDepartment` in entry order. */
  method DepartmentNamePass(prompt: string, table: seq<Entry>)
    returns (departments: seq<string>, prefixes: seq<string>, allTerms: seq<string>)
    ensures departments == MapSeq(Filter(Lower(prompt), table, DepartmentNamed), Value)
    ensures prefixes == MapSeq(Filter(Lower(prompt), table, DepartmentNamed), Key)
    ensures allTerms == MapSeq(Filter(Lower(prompt), table, DepartmentNamed), Value)
  {
    departments, prefixes, allTerms := [], [], [];
    var lowerPrompt := Lower(prompt);
    ghost var named: seq<Entry> := [];
    for i := 0 to |table|
      invariant named == Filter(lowerPrompt, table[..i], DepartmentNamed)
      invariant departments == MapSeq(named, Value)
      invariant prefixes == MapSeq(named, Key)
      invariant allTerms == MapSeq(named, Value)
    {
      var prefix, department := table[i].key, table[i].value;
      FilterStep(lowerPrompt, table, i, DepartmentNamed);
      if Includes(lowerPrompt, Lower(department)) {
        departments := departments + [department];
        prefixes := prefixes + [prefix];
        allTerms := allTerms + [department];
        MapSeqSnoc(named, table[i], Value);
        MapSeqSnoc(named, table[i], Key);
        named := named + [table[i]];
      }
    }
    assert table[..|table|] == table;
  }

  /**
   * The whole-word prefix pass over the keys of `prefixToDepartment`; the department pushed
   * is the value of the key being visited.
   */
  method PrefixPass(prompt: string, table: seq<Entry>)
    returns (departments: seq<string>, prefixes: seq<string>, allTerms: seq<string>)
    ensures departments == MapSeq(Filter(prompt, table, PrefixCited), Value)
    ensures prefixes == MapSeq(Filter(prompt, table, PrefixCited), Key)
    ensures allTerms == MapSeq(Filter(prompt, table, PrefixCited), Key)
  {
    departments, prefixes, allTerms := [], [], [];
    ghost var cited: seq<Entry> := [];
    for i := 0 to |table|
      invariant cited == Filter(prompt, table[..i], PrefixCited)
      invariant prefixes == MapSeq(cited, Key)
      invariant departments == MapSeq(cited, Value)
      invariant allTerms == MapSeq(cited, Key)
    {
      var prefix := table[i].key;
      FilterStep(prompt, table, i, PrefixCited);
      if WordTest(prompt, prefix, 0) {
        prefixes := prefixes + [prefix];
        departments := departments + [table[i].value];
        allTerms := allTerms + [prefix];
        MapSeqSnoc(cited, table[i], Key);
        MapSeqSnoc(cited, table[i], Value);
        cited := cited + [table[i]];
      }
    }
    assert table[..|table|] == table;
  }

  /** The subject-name pass over `subjectVariations` in entry order. */
  method SubjectPass(prompt: string, table: seq<Entry>)
    returns (departments: seq<string>, prefixes: seq<string>, allTerms: seq<string>)
    ensures departments == FlatMap(Filter(Lower(prompt), table, SubjectNamed), SubjectDepartment)
    ensures prefixes == MapSeq(Filter(Lower(prompt), table, SubjectNamed), Value)
    ensures allTerms == MapSeq(Filter(Lower(prompt), table, SubjectNamed), Key)
  {
    departments, prefixes, allTerms := [], [], [];
    var lowerPrompt := Lower(prompt);
    ghost var named: seq<Entry> := [];
    for i := 0 to |table|
      invariant named == Filter(lowerPrompt, table[..i], SubjectNamed)
      invariant prefixes == MapSeq(named, Value)
      invariant departments == FlatMap(named, SubjectDepartment)
      invariant allTerms == MapSeq(named, Key)
    {
      var variation, prefix := table[i].key, table[i].value;
      FilterStep(lowerPrompt, table, i, SubjectNamed);
      if Includes(lowerPrompt, variation) {
        prefixes := prefixes + [prefix];
        var department := Get(PrefixToDepartment, prefix);
        if department.Some? && department.value != "" {
          departments := departments + [department.value];
        }
        allTerms := allTerms + [variation];
        MapSeqSnoc(named, table[i], Value);
        FlatMapSnoc(named, table[i], SubjectDepartment);
        MapSeqSnoc(named, table[i], Key);
        named := named + [table[i]];
      }
    }
    assert table[..|table|] == table;
  }

  /** The resource-type pass over the vocabulary in order. */
  method ResourceTypePass(prompt: string) returns (resourceTypes: seq<string>)
    ensures resourceTypes == NamedResourceTypes(prompt)
  {
    resourceTypes := [];
    var terms := ResourceTypeTerms;
    for i := 0 to |terms|
      invariant resourceTypes == Filter(Lower(prompt), terms[..i], TermNamed)
    {
      var term := terms[i];
      if Includes(Lower(prompt), term) {
        resourceTypes := resourceTypes + [term];
      }
      FilterStep(Lower(prompt), terms, i, TermNamed);
    }
    assert terms[..|terms|] == terms;
  }

  // ---------------------------------------------------------------- what the lists mean

  lemma EmptyPromptHasNoMatches()
    ensures CodeMatches("") == [] && NumberMatches("") == []
  {
  }

  lemma EmptyPromptNamesNoDepartment()
    ensures NamedDepartments("") == []
  {
    DepartmentsNonEmpty();
    NoDepartmentNamedInEmpty(PrefixToDepartment);
  }

  lemma NoDepartmentNamedInEmpty(table: seq<Entry>)
    requires ValuesNonEmpty(table)
    ensures Filter("", table, DepartmentNamed) == []
  {
    forall e | e in table ensures !DepartmentNamed("", e) {
      assert |Lower(e.value)| > 0;
    }
    FilterNone("", table, DepartmentNamed);
  }

  lemma EmptyPromptCitesNoPrefix()
    ensures CitedPrefixes("") == []
  {
    NoPrefixCitedInEmpty(PrefixToDepartment);
  }

  lemma NoPrefixCitedInEmpty(table: seq<Entry>)
    ensures Filter("", table, PrefixCited) == []
  {
    forall e | e in table ensures !PrefixCited("", e) {
      assert !WordMatchAt("", e.key, 0);
    }
    FilterNone("", table, PrefixCited);
  }

  lemma EmptyPromptNamesNoSubject()
    ensures NamedSubjects("") == [] && NamedResourceTypes("") == []
  {
    SubjectNamesNonEmpty();
    FilterNone("", SubjectVariations, SubjectNamed);
    ResourceTypeTermsNonEmpty();
    FilterNone("", ResourceTypeTerms, TermNamed);
  }

  /** An empty prompt yields five empty lists. */
  lemma EmptyPromptYieldsNothing()
    ensures CourseInfoOf("") == CourseInfo([], [], [], [], [])
  {
    EmptyPromptHasNoMatches();
    EmptyPromptNamesNoDepartment();
    EmptyPromptCitesNoPrefix();
    EmptyPromptNamesNoSubject();
    assert CodesFound("") == [];
  }

  /** Every course code and every resource type is also among all the terms. */
  lemma {:induction false} CodesAndTypesAreTerms(prompt: string, t: string)
    ensures t in CourseInfoOf(prompt).courseCodes ==> t in CourseInfoOf(prompt).allTerms
    ensures t in CourseInfoOf(prompt).resourceTypes ==> t in CourseInfoOf(prompt).allTerms
  {
    var terms := CodesWithVariants(prompt) + MapSeq(NamedDepartments(prompt), Value)
                 + MapSeq(CitedPrefixes(prompt), Key) + MapSeq(NamedSubjects(prompt), Key)
                 + NamedResourceTypes(prompt);
    assert CourseInfoOf(prompt).allTerms == Dedup(terms);
    DedupMember(CodesWithVariants(prompt), t);
    DedupMember(NamedResourceTypes(prompt), t);
    DedupMember(terms, t);
  }

  /** A code with a space is never one of the variants, which have no whitespace at all. */
  lemma {:induction false} SpacedCodeIsNoVariant(codes: seq<string>, c: string)
    requires ' ' in c
    ensures c !in FlatMap(codes, SpaceVariants)
  {
    var k :| 0 <= k < |c| && c[k] == ' ';
    assert IsWhitespace(c[k]);
    forall x | x in codes ensures c !in SpaceVariants(x) {
      ReplaceRemovesWhitespace(x, "_");
      ReplaceRemovesWhitespace(x, "");
    }
    FlatMapMember(codes, SpaceVariants, c);
  }

  /**
   * Every course code containing a space comes with its underscore-joined and its
   * space-removed variant, both among the course codes and among all the terms.
   */
  lemma {:induction false} VariantsPresent(prompt: string, c: string)
    requires c in CourseInfoOf(prompt).courseCodes && ' ' in c
    ensures ReplaceWhitespaceRuns(c, "_") in CourseInfoOf(prompt).courseCodes
    ensures ReplaceWhitespaceRuns(c, "") in CourseInfoOf(prompt).courseCodes
    ensures ReplaceWhitespaceRuns(c, "_") in CourseInfoOf(prompt).allTerms
    ensures ReplaceWhitespaceRuns(c, "") in CourseInfoOf(prompt).allTerms
  {
    var found := CodesFound(prompt);
    var extra := FlatMap(found, SpaceVariants);
    DedupMember(CodesWithVariants(prompt), c);
    DedupMember(found + extra, c);
    SpacedCodeIsNoVariant(found, c);
    assert c in found;
    FlatMapMember(found, SpaceVariants, ReplaceWhitespaceRuns(c, "_"));
    FlatMapMember(found, SpaceVariants, ReplaceWhitespaceRuns(c, ""));
    forall v | v in SpaceVariants(c)
      ensures v in CourseInfoOf(prompt).courseCodes && v in CourseInfoOf(prompt).allTerms
    {
      DedupMember(found + extra, v);
      DedupMember(CodesWithVariants(prompt), v);
      CodesAndTypesAreTerms(prompt, v);
    }
  }

  /** Every department returned is a value of `prefixToDepartment`. */
  lemma {:induction false} DepartmentsFromTable(prompt: string, d: string)
    requires d in CourseInfoOf(prompt).departments
    ensures exists p :: Entry(p, d) in PrefixToDepartment
  {
    var cm := CodeMatches(prompt);
    var fromCodes := FlatMap(cm, MatchDepartment);
    var fromNames := MapSeq(NamedDepartments(prompt), Value);
    var fromPrefixes := MapSeq(CitedPrefixes(prompt), Value);
    var fromSubjects := FlatMap(NamedSubjects(prompt), SubjectDepartment);
    DedupMember(fromCodes + fromNames + fromPrefixes + fromSubjects, d);
    if d in fromCodes {
      FlatMapMember(cm, MatchDepartment, d);
      var m :| m in cm && d in MatchDepartment(m);
      assert Entry(MatchPrefix(m), d) in PrefixToDepartment;
    } else if d in fromNames {
      MapSeqMember(NamedDepartments(prompt), Value, d);
      var e :| e in NamedDepartments(prompt) && Value(e) == d;
      FilterMember(Lower(prompt), PrefixToDepartment, DepartmentNamed, e);
      assert Entry(e.key, d) == e;
    } else if d in fromPrefixes {
      MapSeqMember(CitedPrefixes(prompt), Value, d);
      var e :| e in CitedPrefixes(prompt) && Value(e) == d;
      FilterMember(prompt, PrefixToDepartment, PrefixCited, e);
      assert Entry(e.key, d) == e;
    } else {
      FlatMapMember(NamedSubjects(prompt), SubjectDepartment, d);
      var e :| e in NamedSubjects(prompt) && d in SubjectDepartment(e);
      assert Entry(e.value, d) in PrefixToDepartment;
    }
  }

  /** The resource types are exactly the vocabulary words the lowercased prompt contains. */
  lemma ResourceTypesExactly(prompt: string, t: string)
    ensures t in CourseInfoOf(prompt).resourceTypes <==> t in ResourceTypeTerms && Includes(Lower(prompt), t)
  {
    DedupMember(NamedResourceTypes(prompt), t);
    FilterMember(Lower(prompt), ResourceTypeTerms, TermNamed, t);
  }

  /**
   * A normalised course-code match has no whitespace at either end, has only single plain
   * spaces inside, and keeps every other character of the match in order.
   */
  lemma NormalizedShape(m: string)
    ensures Trimmed(NormalizeMatch(m)) && SingleSpaced(NormalizeMatch(m))
    ensures DropWhitespace(NormalizeMatch(m)) == DropWhitespace(m)
  {
    var collapsed := ReplaceWhitespaceRuns(m, " ");
    CollapseSingleSpaced(m);
    var i, j := TrimSlice(collapsed);
    SingleSpacedSlice(collapsed, i, j);
    TrimKeepsText(collapsed);
    CollapseKeepsText(m);
  }

  /** A course-code match splits into its letters, its whitespace run, and its digits with the final letter. */
  lemma CodeTokenParts(s: string, p: nat, a: int, b: int, c: int, e: int)
    requires CodeToken(s, p, a, b, c, e)
    ensures p < a <= b < e <= |s| && s[p..e] == s[p..a] + s[a..b] + s[b..e]
    ensures NoWhitespace(s[p..a]) && NoWhitespace(s[b..e])
    ensures forall k :: 0 <= k < |s[a..b]| ==> IsWhitespace(s[a..b][k])
  {
    var x, w, y := s[p..a], s[a..b], s[b..e];
    forall k | 0 <= k < |x| ensures !IsWhitespace(x[k]) { assert x[k] == s[p + k]; }
    forall k | 0 <= k < |y| ensures !IsWhitespace(y[k]) { assert y[k] == s[b + k]; }
    forall k | 0 <= k < |w| ensures IsWhitespace(w[k]) { assert w[k] == s[a + k]; }
    assert s[p..e] == x + w + y;
  }

  /**
   * The normalised form of a course-code match: its letters, then one space exactly when the
   * match had whitespace between letters and digits, then its digits and final letter.
   */
  lemma NormalizedCode(s: string, p: nat, a: int, b: int, c: int, e: int)
    requires CodeToken(s, p, a, b, c, e)
    ensures NormalizeMatch(s[p..e]) == s[p..a] + (if a < b then " " else "") + s[b..e]
  {
    CodeTokenParts(s, p, a, b, c, e);
    CollapseAndTrim(s[p..a], s[a..b], s[b..e]);
  }

  /**
   * The prefix pushed for a course-code match: its letters when whitespace separated them
   * from the digits, and the whole match (such as "CS61A") otherwise.
   */
  lemma NormalizedCodePrefix(s: string, p: nat, a: int, b: int, c: int, e: int)
    requires CodeToken(s, p, a, b, c, e)
    ensures MatchPrefix(s[p..e]) == if a < b then s[p..a] else s[p..e]
  {
    CodeTokenParts(s, p, a, b, c, e);
    NormalizedCode(s, p, a, b, c, e);
    BeforeSpaceJoined(s[p..a], a < b, s[b..e]);
    if a == b {
      assert s[p..e] == s[p..a] + s[b..e];
    }
  }

  /** Every text the course-code pattern admits yields its normalised code, in the codes and the terms. */
  lemma {:induction false} CourseCodeFound(prompt: string, p: nat, a: int, b: int, c: int, e: int)
    requires CodeToken(prompt, p, a, b, c, e)
    ensures NormalizeMatch(prompt[p..e]) in CourseInfoOf(prompt).courseCodes
    ensures NormalizeMatch(prompt[p..e]) in CourseInfoOf(prompt).allTerms
    ensures MatchPrefix(prompt[p..e]) in CourseInfoOf(prompt).prefixes
  {
    var cm := CodeMatches(prompt);
    CodeMatchesComplete(prompt, p, a, b, c, e);
    MapSeqMember(cm, NormalizeMatch, NormalizeMatch(prompt[p..e]));
    MapSeqMember(cm, MatchPrefix, MatchPrefix(prompt[p..e]));
    CodeFoundIsListed(prompt, NormalizeMatch(prompt[p..e]));
    var info := CourseInfoOf(prompt);
    DedupMember(MapSeq(cm, MatchPrefix) + MapSeq(NamedDepartments(prompt), Key)
                + MapSeq(CitedPrefixes(prompt), Key) + MapSeq(NamedSubjects(prompt), Value), MatchPrefix(prompt[p..e]));
  }

  /** A course-code match whose prefix is a key of `prefixToDepartment` brings that department. */
  lemma {:induction false} CourseCodeDepartment(prompt: string, p: nat, a: int, b: int, c: int, e: int, d: string)
    requires CodeToken(prompt, p, a, b, c, e)
    requires Entry(MatchPrefix(prompt[p..e]), d) in PrefixToDepartment
    ensures d in CourseInfoOf(prompt).departments
  {
    var cm := CodeMatches(prompt);
    CodeMatchesComplete(prompt, p, a, b, c, e);
    assert MatchDepartment(prompt[p..e]) == [d];
    FlatMapMember(cm, MatchDepartment, d);
    DedupMember(FlatMap(cm, MatchDepartment) + MapSeq(NamedDepartments(prompt), Value)
                + MapSeq(CitedPrefixes(prompt), Value) + FlatMap(NamedSubjects(prompt), SubjectDepartment), d);
  }

  /** Every text the course-number pattern admits is in the codes and the terms. */
  lemma {:induction false} CourseNumberFound(prompt: string, p: nat, c: int, e: int)
    requires NumberToken(prompt, p, c, e)
    ensures prompt[p..e] in CourseInfoOf(prompt).courseCodes
    ensures prompt[p..e] in CourseInfoOf(prompt).allTerms
  {
    NumberMatchesComplete(prompt, p, c, e);
    CodeFoundIsListed(prompt, prompt[p..e]);
  }

  lemma {:induction false} CodeFoundIsListed(prompt: string, t: string)
    requires t in CodesFound(prompt)
    ensures t in CourseInfoOf(prompt).courseCodes && t in CourseInfoOf(prompt).allTerms
  {
    var found := CodesFound(prompt);
    DedupMember(found + FlatMap(found, SpaceVariants), t);
    DedupMember(CodesWithVariants(prompt), t);
    CodesAndTypesAreTerms(prompt, t);
  }

  /** A department name the lowercased prompt contains brings its department and its prefix. */
  lemma {:induction false} DepartmentNameFound(prompt: string, e: Entry)
    requires e in PrefixToDepartment && Includes(Lower(prompt), Lower(e.value))
    ensures e.value in CourseInfoOf(prompt).departments
    ensures e.key in CourseInfoOf(prompt).prefixes
    ensures e.value in CourseInfoOf(prompt).allTerms
  {
    var named := NamedDepartments(prompt);
    FilterMember(Lower(prompt), PrefixToDepartment, DepartmentNamed, e);
    MapSeqMember(named, Value, e.value);
    MapSeqMember(named, Key, e.key);
    var info := CourseInfoOf(prompt);
    var cm := CodeMatches(prompt);
    DedupMember(FlatMap(cm, MatchDepartment) + MapSeq(named, Value)
                + MapSeq(CitedPrefixes(prompt), Value) + FlatMap(NamedSubjects(prompt), SubjectDepartment), e.value);
    DedupMember(MapSeq(cm, MatchPrefix) + MapSeq(named, Key)
                + MapSeq(CitedPrefixes(prompt), Key) + MapSeq(NamedSubjects(prompt), Value), e.key);
    DedupMember(CodesWithVariants(prompt) + MapSeq(named, Value)
                + MapSeq(CitedPrefixes(prompt), Key) + MapSeq(NamedSubjects(prompt), Key)
                + NamedResourceTypes(prompt), e.value);
  }

  /** A prefix occurring as a whole word, in any letter case, brings itself and its department. */
  lemma {:induction false} PrefixWordFound(prompt: string, e: Entry, p: int)
    requires e in PrefixToDepartment && WordMatchAt(prompt, e.key, p)
    ensures e.key in CourseInfoOf(prompt).prefixes
    ensures e.value in CourseInfoOf(prompt).departments
    ensures e.key in CourseInfoOf(prompt).allTerms
  {
    WordTestExactly(prompt, e.key, 0);
    var cited := CitedPrefixes(prompt);
    FilterMember(prompt, PrefixToDepartment, PrefixCited, e);
    MapSeqMember(cited, Value, e.value);
    MapSeqMember(cited, Key, e.key);
    var info := CourseInfoOf(prompt);
    var cm := CodeMatches(prompt);
    DedupMember(FlatMap(cm, MatchDepartment) + MapSeq(NamedDepartments(prompt), Value)
                + MapSeq(cited, Value) + FlatMap(NamedSubjects(prompt), SubjectDepartment), e.value);
    DedupMember(MapSeq(cm, MatchPrefix) + MapSeq(NamedDepartments(prompt), Key)
                + MapSeq(cited, Key) + MapSeq(NamedSubjects(prompt), Value), e.key);
    DedupMember(CodesWithVariants(prompt) + MapSeq(NamedDepartments(prompt), Value)
                + MapSeq(cited, Key) + MapSeq(NamedSubjects(prompt), Key)
                + NamedResourceTypes(prompt), e.key);
  }

  /** A subject name the lowercased prompt contains brings its prefix, and the name is a term. */
  lemma {:induction false} SubjectNameFound(prompt: string, e: Entry)
    requires e in SubjectVariations && Includes(Lower(prompt), e.key)
    ensures e.value in CourseInfoOf(prompt).prefixes
    ensures e.key in CourseInfoOf(prompt).allTerms
  {
    var named := NamedSubjects(prompt);
    FilterMember(Lower(prompt), SubjectVariations, SubjectNamed, e);
    MapSeqMember(named, Value, e.value);
    MapSeqMember(named, Key, e.key);
    var info := CourseInfoOf(prompt);
    var cm := CodeMatches(prompt);
    DedupMember(MapSeq(cm, MatchPrefix) + MapSeq(NamedDepartments(prompt), Key)
                + MapSeq(CitedPrefixes(prompt), Key) + MapSeq(named, Value), e.value);
    DedupMember(CodesWithVariants(prompt) + MapSeq(NamedDepartments(prompt), Value)
                + MapSeq(CitedPrefixes(prompt), Key) + MapSeq(named, Key)
                + NamedResourceTypes(prompt), e.key);
  }
}
