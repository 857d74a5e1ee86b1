/**
 * The retrieval half of `searchCourseExams`: normalise the extracted course codes, keep the
 * course documents whose id matches one of them, project every exam of those courses into
 * a `CourseResource`, sort the resources by `year`, newest first, and keep the first 15.
 *
 * The store is not modelled: the course documents and their exam records are an input
 * list, and whether the connectivity probe succeeded is a boolean.
 */
module Search {
  import opened Wrappers
  import opened Seqs
  import opened Text
  import opened Extract

  /** The `metadata` map of an exam record, as far as the route reads it. */
  datatype Metadata = Metadata(resourceType: Option<string>)

  /** The fields of an exam record the route reads; None is a missing field. */
  datatype ExamData = ExamData(
    semester: Option<string>,
    year: Option<string>,
    resourceType: Option<string>,
    resourceUrl: Option<string>,
    metadata: Option<Metadata>)

  datatype ExamDoc = ExamDoc(id: string, data: ExamData)

  /** A document of the `courses` collection with the documents of its `exams` subcollection. */
  datatype CourseDoc = CourseDoc(id: string, exams: seq<ExamDoc>)

  datatype CourseResource = CourseResource(
    id: string,
    parentCourseId: string,
    collectionPath: string,
    courseCode: string,
    courseName: string,
    department: string,
    school: string,
    semester: string,
    year: string,
    resourceType: string,
    resourceUrl: string,
    metadata: Metadata)

  datatype SearchError = StoreUnavailable

  /** The most resources a search returns. */
  const MaxResources := 15

  // ---------------------------------------------------------------- course-id matching

  /** `s.replace(/[^a-zA-Z0-9]/g, '').toLowerCase()` */
  function NormalizeCode(s: string): (r: string)
    ensures forall i :: 0 <= i < |r| ==> IsAsciiLower(r[i]) || IsDigit(r[i])
    ensures |r| <= |s|
    decreases |s|
  {
    if s == [] then []
    else
      var init := NormalizeCode(s[..|s| - 1]);
      if IsAsciiAlnum(s[|s| - 1]) then init + [LowerChar(s[|s| - 1])] else init
  }

  /** Normalising twice is normalising once. */
  lemma {:induction false} NormalizeCodeIdempotent(s: string)
    ensures NormalizeCode(NormalizeCode(s)) == NormalizeCode(s)
  {
    KeepsNormalized(NormalizeCode(s));
  }

  lemma {:induction false} KeepsNormalized(s: string)
    requires forall i :: 0 <= i < |s| ==> IsAsciiLower(s[i]) || IsDigit(s[i])
    ensures NormalizeCode(s) == s
    decreases |s|
  {
    if s != [] {
      KeepsNormalized(s[..|s| - 1]);
      assert s == s[..|s| - 1] + [s[|s| - 1]];
    }
  }

  /** `docIdNormalized === v || docIdNormalized.endsWith(v) || docIdNormalized.includes(v)` */
  predicate VariantMatches(docIdNormalized: string, v: string) {
    docIdNormalized == v || EndsWith(docIdNormalized, v) || Includes(docIdNormalized, v)
  }

  function NormalizedVariants(courseCodes: seq<string>): seq<string> {
    MapSeq(courseCodes, NormalizeCode)
  }

  /** The filter callback: some normalised code variant matches the normalised document id. */
  predicate CourseIdMatches(variants: seq<string>, doc: CourseDoc) {
    exists v :: v in variants && VariantMatches(NormalizeCode(doc.id), v)
  }

  /** The equality and suffix tests are subsumed: a course matches exactly when a variant occurs in its id. */
  lemma CourseIdMatchesIffContains(variants: seq<string>, doc: CourseDoc)
    ensures CourseIdMatches(variants, doc) <==> exists v :: v in variants && Includes(NormalizeCode(doc.id), v)
  {
    var n := NormalizeCode(doc.id);
    forall v | v in variants && VariantMatches(n, v) ensures Includes(n, v) {
      if n == v {
        assert v <= n[0..];
      } else if EndsWith(n, v) {
        assert v <= n[|n| - |v|..];
      }
    }
  }

  /** The courses that match, in input order. */
  function MatchedCourses(variants: seq<string>, courses: seq<CourseDoc>): seq<CourseDoc> {
    Filter(variants, courses, CourseIdMatches)
  }

  /** A course is kept exactly when it matches, and matching keeps the input order. */
  lemma MatchedCoursesExactly(variants: seq<string>, courses: seq<CourseDoc>, more: seq<CourseDoc>, c: CourseDoc)
    ensures c in MatchedCourses(variants, courses) <==> c in courses && CourseIdMatches(variants, c)
    ensures MatchedCourses(variants, courses + more) == MatchedCourses(variants, courses) + MatchedCourses(variants, more)
  {
    FilterMember(variants, courses, CourseIdMatches, c);
    FilterAppend(variants, courses, more, CourseIdMatches);
  }

  // ---------------------------------------------------------------- projection

  /** The `CourseResource` pushed for exam `exam` of course `courseId`. */
  function Project(courseId: string, exam: ExamDoc): (r: CourseResource)
    ensures r.id == exam.id && r.parentCourseId == courseId && r.courseCode == courseId
    ensures r.collectionPath == "courses/" + courseId + "/exams/" + exam.id
    ensures r.courseName == "" && r.department == "" && r.school == ""
    ensures exam.data.semester.Some? ==> r.semester == exam.data.semester.value
    ensures exam.data.semester.None? ==> r.semester == ""
    ensures exam.data.year.Some? ==> r.year == exam.data.year.value
    ensures exam.data.year.None? ==> r.year == ""
    ensures exam.data.resourceUrl.Some? ==> r.resourceUrl == exam.data.resourceUrl.value
    ensures exam.data.resourceUrl.None? ==> r.resourceUrl == ""
    ensures exam.data.resourceType.Some? && exam.data.resourceType.value != "" ==> r.resourceType == exam.data.resourceType.value
    ensures exam.data.resourceType.GetOr("") == "" ==> r.resourceType == MetadataResourceType(exam.data)
    ensures exam.data.metadata.None? ==> r.metadata == Metadata(None)
    ensures exam.data.metadata.Some? ==> r.metadata == exam.data.metadata.value
  {
    var data := exam.data;
    CourseResource(
      id := exam.id,
      parentCourseId := courseId,
      collectionPath := "courses/" + courseId + "/exams/" + exam.id,
      courseCode := courseId,
      courseName := "",
      department := "",
      school := "",
      semester := data.semester.GetOr(""),
      year := data.year.GetOr(""),
      resourceType := if data.resourceType.GetOr("") != "" then data.resourceType.value else MetadataResourceType(data),
      resourceUrl := data.resourceUrl.GetOr(""),
      metadata := data.metadata.GetOr(Metadata(None)))
  }

  /** `data.metadata?.resource_type || ''` */
  function MetadataResourceType(data: ExamData): string {
    match data.metadata
    case Some(m) => m.resourceType.GetOr("")
    case None => ""
  }

  function CourseResources(course: CourseDoc): seq<CourseResource> {
    ProjectAll(course.id, course.exams)
  }

  function ProjectAll(courseId: string, exams: seq<ExamDoc>): (r: seq<CourseResource>)
    ensures |r| == |exams|
    ensures forall i :: 0 <= i < |exams| ==> r[i] == Project(courseId, exams[i])
    decreases |exams|
  {
    if exams == [] then [] else ProjectAll(courseId, exams[..|exams| - 1]) + [Project(courseId, exams[|exams| - 1])]
  }

  /** Every resource collected from the matched courses, course by course, exam by exam. */
  function Collected(matched: seq<CourseDoc>): seq<CourseResource> {
    FlatMap(matched, CourseResources)
  }

  /** Every collected resource is the projection of an exam of a matched course. */
  lemma {:induction false} CollectedAreProjections(matched: seq<CourseDoc>, r: CourseResource)
    requires r in Collected(matched)
    ensures exists c, x :: c in matched && x in c.exams && r == Project(c.id, x)
  {
    FlatMapMember(matched, CourseResources, r);
    var c :| c in matched && r in CourseResources(c);
    var i :| 0 <= i < |c.exams| && CourseResources(c)[i] == r;
    assert c.exams[i] in c.exams;
  }

  // ---------------------------------------------------------------- ordering

  /** `a.localeCompare(b) < 0`, read as code-point order. */
  predicate StrLess(a: string, b: string)
    decreases |a|
  {
    if a == [] then b != []
    else if b == [] then false
    else if a[0] != b[0] then a[0] < b[0]
    else StrLess(a[1..], b[1..])
  }

  lemma {:induction false} StrLessIrreflexive(a: string)
    ensures !StrLess(a, a)
    decreases |a|
  {
    if a != [] {
      StrLessIrreflexive(a[1..]);
    }
  }

  lemma {:induction false} StrLessTransitive(a: string, b: string, c: string)
    requires StrLess(a, b) && StrLess(b, c)
    ensures StrLess(a, c)
    decreases |a|
  {
    if a != [] && b != [] && c != [] && a[0] == b[0] && b[0] == c[0] {
      StrLessTransitive(a[1..], b[1..], c[1..]);
    }
  }

  lemma {:induction false} StrLessTotal(a: string, b: string)
    ensures a == b || StrLess(a, b) || StrLess(b, a)
    decreases |a|
  {
    if a != [] && b != [] && a[0] == b[0] {
      StrLessTotal(a[1..], b[1..]);
      if a[1..] == b[1..] {
        assert a == [a[0]] + a[1..] && b == [b[0]] + b[1..];
      }
    }
  }

  /** `r` may stand before `s` in a list sorted newest first: its year is not older. */
  predicate NotOlder(r: CourseResource, s: CourseResource) {
    !StrLess(r.year, s.year)
  }

  predicate SortedByYear(rs: seq<CourseResource>) {
    forall i, j :: 0 <= i < j < |rs| ==> NotOlder(rs[i], rs[j])
  }

  /**
   * Inserts x into a list sorted newest first, after every element not older than x: the
   * element's place in the stable sort `resources.sort((a, b) => b.year.localeCompare(a.year))`.
   */
  function Insert(sorted: seq<CourseResource>, x: CourseResource): (r: seq<CourseResource>)
    ensures multiset(r) == multiset(sorted) + multiset{x}
    ensures |r| == |sorted| + 1
    decreases |sorted|
  {
    if sorted == [] then [x]
    else
      var init, last := sorted[..|sorted| - 1], sorted[|sorted| - 1];
      assert sorted == init + [last];
      if StrLess(last.year, x.year) then Insert(init, x) + [last] else sorted + [x]
  }

  lemma {:induction false} InsertSorted(sorted: seq<CourseResource>, x: CourseResource)
    requires SortedByYear(sorted)
    ensures SortedByYear(Insert(sorted, x))
    decreases |sorted|
  {
    if sorted != [] {
      var init, last := sorted[..|sorted| - 1], sorted[|sorted| - 1];
      if StrLess(last.year, x.year) {
        InsertSorted(init, x);
        var r := Insert(init, x);
        assert multiset(r) == multiset(init) + multiset{x};
        forall k | 0 <= k < |r| ensures NotOlder(r[k], last) {
          assert r[k] in multiset(r);
          if r[k] == x {
            StrLessIrreflexiveAsym(last.year, x.year);
          } else {
            assert r[k] in init;
            var m :| 0 <= m < |init| && init[m] == r[k];
            assert NotOlder(sorted[m], sorted[|sorted| - 1]);
          }
        }
      } else {
        forall k | 0 <= k < |sorted| ensures NotOlder(sorted[k], x) {
          if StrLess(sorted[k].year, x.year) {
            StrLessTotal(sorted[k].year, last.year);
            if sorted[k].year != last.year {
              StrLessTransitive(last.year, sorted[k].year, x.year);
            }
          }
        }
      }
    }
  }

  lemma StrLessIrreflexiveAsym(a: string, b: string)
    requires StrLess(a, b)
    ensures !StrLess(b, a)
  {
    if StrLess(b, a) {
      StrLessTransitive(a, b, a);
      StrLessIrreflexive(a);
    }
  }

  /** The stable sort by year, newest first. */
  function SortByYear(rs: seq<CourseResource>): (r: seq<CourseResource>)
    ensures multiset(r) == multiset(rs)
    ensures |r| == |rs|
    decreases |rs|
  {
    if rs == [] then []
    else
      assert rs == rs[..|rs| - 1] + [rs[|rs| - 1]];
      Insert(SortByYear(rs[..|rs| - 1]), rs[|rs| - 1])
  }

  lemma {:induction false} SortByYearSorted(rs: seq<CourseResource>)
    ensures SortedByYear(SortByYear(rs))
    decreases |rs|
  {
    if rs != [] {
      SortByYearSorted(rs[..|rs| - 1]);
      InsertSorted(SortByYear(rs[..|rs| - 1]), rs[|rs| - 1]);
    }
  }

  predicate HasYear(y: string, r: CourseResource) { r.year == y }

  /** Insertion puts x after every resource of the same year. */
  lemma {:induction false} InsertAfterSameYear(sorted: seq<CourseResource>, x: CourseResource, y: string)
    ensures Filter(y, Insert(sorted, x), HasYear) == Filter(y, sorted, HasYear) + (if x.year == y then [x] else [])
    decreases |sorted|
  {
    if sorted != [] {
      var init, last := sorted[..|sorted| - 1], sorted[|sorted| - 1];
      var xs := if x.year == y then [x] else [];
      var ls := if last.year == y then [last] else [];
      assert sorted == init + [last];
      FilterSnoc(y, init, last, HasYear);
      var fs := Filter(y, init, HasYear) + ls;
      assert Filter(y, sorted, HasYear) == fs;
      if StrLess(last.year, x.year) {
        var r := Insert(init, x);
        InsertAfterSameYear(init, x, y);
        FilterSnoc(y, r, last, HasYear);
        assert xs == [] || ls == [] by {
          if x.year == y && last.year == y {
            StrLessIrreflexive(y);
          }
        }
        assert Insert(sorted, x) == r + [last];
        var fi := Filter(y, init, HasYear);
        assert Filter(y, r + [last], HasYear) == fi + xs + ls;
        if xs == [] {
          assert fi + xs + ls == fs && fs + xs == fs;
        } else {
          assert ls == [];
          assert fi + xs + ls == fi + xs && fs == fi;
        }
      } else {
        assert Insert(sorted, x) == sorted + [x];
        FilterSnoc(y, sorted, x, HasYear);
      }
    }
  }

  /** The sort is stable: resources of the same year keep their relative order. */
  lemma {:induction false} SortByYearStable(rs: seq<CourseResource>, y: string)
    ensures Filter(y, SortByYear(rs), HasYear) == Filter(y, rs, HasYear)
    decreases |rs|
  {
    if rs != [] {
      SortByYearStable(rs[..|rs| - 1], y);
      InsertAfterSameYear(SortByYear(rs[..|rs| - 1]), rs[|rs| - 1], y);
    }
  }

  /** `resources.slice(0, 15)` */
  function Take(rs: seq<CourseResource>, n: nat): (r: seq<CourseResource>)
    ensures |r| == if |rs| < n then |rs| else n
    ensures r <= rs
  {
    if |rs| <= n then rs else rs[..n]
  }

  // ---------------------------------------------------------------- the search

  /** What `searchCourseExams(prompt, searchTerms)` returns, the store answering with `courses`. */
  function SearchResult(prompt: string, storeReachable: bool, courses: seq<CourseDoc>): Result<seq<CourseResource>, SearchError> {
    if !storeReachable then Failure(StoreUnavailable)
    else
      var variants := NormalizedVariants(CourseInfoOf(prompt).courseCodes);
      Success(Take(SortByYear(Collected(MatchedCourses(variants, courses))), MaxResources))
  }

  /**
   * `searchCourseExams`: the store probe, the extraction, the matching filter, the
   * collection loop over matched courses and their exams, the sort and the cap.
   * `searchTerms` is only logged by the route and has no effect.
   */
  method SearchCourseExams(prompt: string, searchTerms: seq<string>, storeReachable: bool, courses: seq<CourseDoc>)
    returns (result: Result<seq<CourseResource>, SearchError>)
    ensures result == SearchResult(prompt, storeReachable, courses)
    ensures result.Success? <==> storeReachable
    ensures result.Success? ==> |result.value| <= MaxResources && SortedByYear(result.value)
    ensures result.Success? ==> multiset(result.value) <= multiset(Collected(MatchedCourses(
              NormalizedVariants(CourseInfoOf(prompt).courseCodes), courses)))
  {
    if !storeReachable {
      return Failure(StoreUnavailable);
    }
    var extractedInfo := ExtractCourseInfo(prompt);
    var normalizedCodeVariants := NormalizedVariants(extractedInfo.courseCodes);
    var matchedCourses := MatchedCourses(normalizedCodeVariants, courses);
    var resources := CollectResources(matchedCourses);
    var sorted := SortByYear(resources);
    SortByYearSorted(resources);
    var top := Take(sorted, MaxResources);
    TakeSorted(sorted, MaxResources);
    TakeSubMultiset(sorted, MaxResources);
    return Success(top);
  }

  /** The collection loop: for each matched course, for each of its exams, push the projection. */
  method CollectResources(matchedCourses: seq<CourseDoc>) returns (resources: seq<CourseResource>)
    ensures resources == Collected(matchedCourses)
  {
    resources := [];
    for i := 0 to |matchedCourses|
      invariant resources == Collected(matchedCourses[..i])
    {
      var courseDoc := matchedCourses[i];
      ghost var before := resources;
      for j := 0 to |courseDoc.exams|
        invariant resources == before + ProjectAll(courseDoc.id, courseDoc.exams[..j])
      {
        resources := resources + [Project(courseDoc.id, courseDoc.exams[j])];
        assert courseDoc.exams[..j + 1][..j] == courseDoc.exams[..j];
      }
      assert courseDoc.exams[..|courseDoc.exams|] == courseDoc.exams;
      FlatMapStep(matchedCourses, i, CourseResources);
    }
    assert matchedCourses[..|matchedCourses|] == matchedCourses;
  }

  lemma TakeSorted(rs: seq<CourseResource>, n: nat)
    requires SortedByYear(rs)
    ensures SortedByYear(Take(rs, n))
  {
  }

  lemma TakeSubMultiset(rs: seq<CourseResource>, n: nat)
    ensures multiset(Take(rs, n)) <= multiset(rs)
  {
    if n < |rs| {
      assert rs == rs[..n] + rs[n..];
    }
  }
}
