/**
 * The static tables of the search route: `prefixToDepartment`, the reverse table
 * `departmentToPrefixes` built from it by a loop, the subject-name synonyms and the
 * resource-type vocabulary.
 *
 * A JavaScript object is modelled by the list of its own properties in insertion
 * order, which is the order `Object.entries` and `Object.keys` report them in. An
 * object literal defines its properties one after another; defining a key a second
 * time replaces the value and keeps the key's first position, so an object never lists
 * a key twice.
 */
module Tables {
  import opened Wrappers
  import opened Seqs

  /** One own property of an object. */
  datatype Entry = Entry(key: string, value: string)

  function Key(e: Entry): string { e.key }

  function Value(e: Entry): string { e.value }

  predicate DistinctKeys(o: seq<Entry>) {
    forall i, j :: 0 <= i < j < |o| ==> o[i].key != o[j].key
  }

  /** Where key k stands among the properties of o. */
  function IndexOfKey(o: seq<Entry>, k: string): (r: Option<nat>)
    ensures r.Some? ==> r.value < |o| && o[r.value].key == k
    ensures r.None? ==> forall i :: 0 <= i < |o| ==> o[i].key != k
    decreases |o|
  {
    if o == [] then None
    else if o[0].key == k then Some(0)
    else match IndexOfKey(o[1..], k)
      case Some(i) => Some(i + 1)
      case None => None
  }

  /** o has a property with key k. */
  predicate HasKey(o: seq<Entry>, k: string) {
    exists i :: 0 <= i < |o| && o[i].key == k
  }

  /** `o[k]`, None standing for `undefined`. */
  function Get(o: seq<Entry>, k: string): (r: Option<string>)
    ensures r.Some? ==> Entry(k, r.value) in o
    ensures r.None? <==> !HasKey(o, k)
  {
    match IndexOfKey(o, k)
    case Some(i) => assert o[i] == Entry(k, o[i].value); Some(o[i].value)
    case None => None
  }

  /** With distinct keys, `o[k]` is the value of the one property with key k. */
  lemma GetOfMember(o: seq<Entry>, e: Entry)
    requires DistinctKeys(o) && e in o
    ensures Get(o, e.key) == Some(e.value)
  {
    var i :| 0 <= i < |o| && o[i] == e;
    var j := IndexOfKey(o, e.key).value;
    assert i == j;
  }

  /** With distinct keys, `o[k]` is the value of any property with key k. */
  lemma GetOfKey(o: seq<Entry>, k: string)
    requires DistinctKeys(o)
    ensures forall d :: Entry(k, d) in o ==> Get(o, k) == Some(d)
  {
    forall d | Entry(k, d) in o ensures Get(o, k) == Some(d) {
      GetOfMember(o, Entry(k, d));
    }
  }

  /**
   * `if (o[k]) xs.push(o[k])`: what is pushed, the value under k when it is truthy. On a
   * table with distinct keys and non-empty values a key pushes exactly its value.
   */
  function TruthyValue(o: seq<Entry>, k: string): (r: seq<string>)
    ensures |r| <= 1
    ensures forall d :: d in r ==> Entry(k, d) in o
    ensures DistinctKeys(o) && ValuesNonEmpty(o) ==> forall d :: Entry(k, d) in o ==> r == [d]
  {
    if DistinctKeys(o) then GetOfKey(o, k); TruthyOf(Get(o, k)) else TruthyOf(Get(o, k))
  }

  function TruthyOf(v: Option<string>): seq<string> {
    match v
    case Some(d) => if d != "" then [d] else []
    case None => []
  }

  /** Defining property k: v on o. */
  function Put(o: seq<Entry>, k: string, v: string): (r: seq<Entry>)
    requires DistinctKeys(o)
    ensures DistinctKeys(r)
    ensures Entry(k, v) in r
    ensures forall k' :: HasKey(r, k') <==> HasKey(o, k') || k' == k
    ensures forall e :: e in r ==> e == Entry(k, v) || (e in o && e.key != k)
    ensures forall e :: e in o && e.key != k ==> e in r
  {
    match IndexOfKey(o, k)
    case Some(i) =>
      var r := o[i := Entry(k, v)];
      assert r[i] == Entry(k, v);
      assert forall e :: e in o && e.key != k ==> e in r by {
        forall e | e in o && e.key != k ensures e in r {
          var j :| 0 <= j < |o| && o[j] == e;
          assert r[j] == e;
        }
      }
      r
    case None =>
      var r := o + [Entry(k, v)];
      assert forall k' :: HasKey(o, k') ==> HasKey(r, k') by {
        forall k' | HasKey(o, k') ensures HasKey(r, k') {
          var j :| 0 <= j < |o| && o[j].key == k';
          assert r[j].key == k';
        }
      }
      assert r[|o|].key == k;
      r
  }

  /** The object `{ k1: v1, k2: v2, … }` with the properties of `props` defined in order. */
  function ObjectLiteral(props: seq<Entry>): (o: seq<Entry>)
    ensures DistinctKeys(o)
    ensures forall e :: e in o ==> e in props
    ensures forall e :: e in props ==> HasKey(o, e.key)
    decreases |props|
  {
    if props == [] then []
    else
      var init, last := props[..|props| - 1], props[|props| - 1];
      var o := Put(ObjectLiteral(init), last.key, last.value);
      assert forall e :: e in props ==> e in init || e == last by {
        assert props == init + [last];
      }
      o
  }

  predicate HasValue(d: string, e: Entry) { e.value == d }

  /**
   * The list `departmentToPrefixes[d]` ends up holding: the keys of o whose value is d,
   * in the order `Object.entries` visits them.
   */
  function KeysWithValue(o: seq<Entry>, d: string): seq<string> {
    MapSeq(Filter(d, o, HasValue), Key)
  }

  /**
   * Builds `departmentToPrefixes` from `prefixToDepartment`: for each property
   * [prefix, department], create the department's list if it has none, then push the prefix.
   */
  method DepartmentToPrefixes(o: seq<Entry>) returns (m: map<string, seq<string>>)
    ensures forall d :: d in m <==> exists i :: 0 <= i < |o| && o[i].value == d
    ensures forall d :: d in m ==> m[d] == KeysWithValue(o, d)
  {
    m := map[];
    for i := 0 to |o|
      invariant forall d :: d in m <==> exists k :: 0 <= k < i && o[k].value == d
      invariant forall d :: d in m ==> m[d] == KeysWithValue(o[..i], d)
    {
      var prefix, department := o[i].key, o[i].value;
      if department !in m {
        if Filter(department, o[..i], HasValue) != [] {
          var x := Filter(department, o[..i], HasValue)[0];
          FilterMember(department, o[..i], HasValue, x);
          assert false;
        }
        m := m[department := []];
      }
      m := m[department := m[department] + [prefix]];
      forall d | d in m ensures m[d] == KeysWithValue(o[..i + 1], d) {
        FilterStep(d, o, i, HasValue);
        if d == department {
          assert Filter(d, o[..i + 1], HasValue) == Filter(d, o[..i], HasValue) + [o[i]];
          assert Filter(d, o[..i + 1], HasValue)[..|Filter(d, o[..i], HasValue)|] == Filter(d, o[..i], HasValue);
          MapSeqStep(Filter(d, o[..i + 1], HasValue), |Filter(d, o[..i], HasValue)|, Key);
        } else {
          assert Filter(d, o[..i + 1], HasValue) == Filter(d, o[..i], HasValue);
        }
      }
    }
    assert o[..|o|] == o;
  }

  /** Every key of o is listed under its own value. */
  lemma {:induction false} KeyListedUnderValue(o: seq<Entry>, e: Entry)
    requires e in o
    ensures e.key in KeysWithValue(o, e.value)
  {
    FilterMember(e.value, o, HasValue, e);
    MapSeqMember(Filter(e.value, o, HasValue), Key, e.key);
  }

  /** Every key listed under d maps back to d. */
  lemma {:induction false} ListedKeyMapsBack(o: seq<Entry>, d: string, k: string)
    requires DistinctKeys(o) && k in KeysWithValue(o, d)
    ensures Get(o, k) == Some(d)
  {
    MapSeqMember(Filter(d, o, HasValue), Key, k);
    var e :| e in Filter(d, o, HasValue) && Key(e) == k;
    FilterMember(d, o, HasValue, e);
    GetOfMember(o, e);
  }

  /** A filtered list of properties with distinct keys has distinct keys. */
  lemma {:induction false} FilterKeepsDistinctKeys(d: string, o: seq<Entry>)
    requires DistinctKeys(o)
    ensures DistinctKeys(Filter(d, o, HasValue))
    decreases |o|
  {
    if o != [] {
      var init := o[..|o| - 1];
      FilterKeepsDistinctKeys(d, init);
      var f := Filter(d, init, HasValue);
      forall e | e in f ensures e.key != o[|o| - 1].key {
        FilterMember(d, init, HasValue, e);
      }
    }
  }

  /** No key is listed twice under a department. */
  lemma KeysWithValueNoDups(o: seq<Entry>, d: string)
    requires DistinctKeys(o)
    ensures NoDups(KeysWithValue(o, d))
  {
    FilterKeepsDistinctKeys(d, o);
  }

  // ------------------------------------------------------------------ the tables

  // The literal of `prefixToDepartment`, in its order, written in runs by initial letter so
  // that the verifier can go through each run on its own.

  const PrefixesAB: seq<Entry> := [
    Entry("Anthro", "Anthropology"), Entry("AAS", "Asian American Studies Program"),
    Entry("Astro", "Astronomy"), Entry("BioE", "Bioengineering"), Entry("Bio", "Biology"),
    Entry("Buddh", "Buddhist Studies")]

  const PrefixesC: seq<Entry> := [
    Entry("ChemE", "Chemical Engineering"), Entry("Chem", "Chemistry"), Entry("Chinese", "Chinese"),
    Entry("City", "City and Regional Planning"),
    Entry("CEE", "Civil and Environmental Engineering"),
    Entry("CE", "Civil and Environmental Engineering"), Entry("Classics", "Classics"),
    Entry("CogSci", "Cognitive Science"), Entry("CWP", "College Writing Program"),
    Entry("CompLit", "Comparative Literature"), Entry("CS", "Computer Science")]

  const PrefixesDE: seq<Entry> := [
    Entry("DS", "Data Science"), Entry("Econ", "Economics"), Entry("Educ", "Education"),
    Entry("EE", "Electrical Engineering"), Entry("ERG", "Energy and Resources Group"),
    Entry("Eng", "Engineering"), Entry("English", "English"),
    Entry("EnvDes", "Environmental Design"),
    Entry("ESPM", "Environmental Science, Policy, and Management"),
    Entry("Ethnic", "Ethnic Studies")]

  const PrefixesFI: seq<Entry> := [
    Entry("French", "French"), Entry("Geog", "Geography"), Entry("German", "German"),
    Entry("Hist", "History"), Entry("HistArt", "History of Art"),
    Entry("IEOR", "Industrial Engineering and Operations Research"), Entry("Info", "Information"),
    Entry("IB", "Integrative Biology"), Entry("Italian", "Italian Studies")]

  const PrefixesJM: seq<Entry> := [
    Entry("Japn", "Japanese"), Entry("Korean", "Korean"), Entry("LA", "Landscape Architecture"),
    Entry("Ling", "Linguistics"), Entry("MSE", "Materials Science and Engineering"),
    Entry("Math", "Mathematics"), Entry("ME", "Mechanical Engineering"),
    Entry("MCB", "Molecular and Cell Biology"), Entry("Music", "Music")]

  const PrefixesNP: seq<Entry> := [
    Entry("NES", "Near Eastern Studies"), Entry("NE", "Nuclear Engineering"),
    Entry("NST", "Nutritional Sciences and Toxicology"), Entry("Phys", "Physics"),
    Entry("PolSci", "Political Science"), Entry("Psych", "Psychology"),
    Entry("PH", "Public Health"), Entry("PubPol", "Public Policy")]

  const PrefixesRU: seq<Entry> := [
    Entry("Rhet", "Rhetoric"), Entry("Scand", "Scandinavian"), Entry("Soc", "Sociology"),
    Entry("SAsian", "South Asian"), Entry("Span", "Spanish"), Entry("Stat", "Statistics"),
    Entry("TDPS", "Theater, Dance, and Performance Studies"),
    Entry("UGBA", "Undergraduate Business Administration")]

  const PrefixProperties: seq<Entry> :=
    PrefixesAB + PrefixesC + PrefixesDE + PrefixesFI + PrefixesJM + PrefixesNP + PrefixesRU

  /** `prefixToDepartment`: course-code prefix to department name. */
  const PrefixToDepartment: seq<Entry> := ObjectLiteral(PrefixProperties)


  /** `subjectVariations`: natural-language subject name to course-code prefix. */
  const SubjectVariations: seq<Entry> := ObjectLiteral(SubjectVariationProperties)

  const SubjectVariationProperties: seq<Entry> := [
    Entry("physics", "Phys"), Entry("math", "Math"), Entry("mathematics", "Math"),
    Entry("computer science", "CS"), Entry("programming", "CS"), Entry("chemistry", "Chem"),
    Entry("biology", "Bio"), Entry("economics", "Econ"), Entry("statistics", "Stat"),
    Entry("psychology", "Psych"), Entry("history", "Hist"), Entry("english", "English")]

  /** `resourceTypeTerms`: the resource-type vocabulary. */
  const ResourceTypeTerms: seq<string> :=
    ["midterm", "final", "exam", "homework", "hw", "quiz", "lecture", "notes", "lab", "discussion", "project"]

  predicate ValuesNonEmpty(o: seq<Entry>) {
    forall e :: e in o ==> e.value != []
  }

  lemma PrefixesABNonEmpty() ensures ValuesNonEmpty(PrefixesAB) {}
  lemma PrefixesCNonEmpty() ensures ValuesNonEmpty(PrefixesC) {}
  lemma PrefixesDENonEmpty() ensures ValuesNonEmpty(PrefixesDE) {}
  lemma PrefixesFINonEmpty() ensures ValuesNonEmpty(PrefixesFI) {}
  lemma PrefixesJMNonEmpty() ensures ValuesNonEmpty(PrefixesJM) {}
  lemma PrefixesNPNonEmpty() ensures ValuesNonEmpty(PrefixesNP) {}
  lemma PrefixesRUNonEmpty() ensures ValuesNonEmpty(PrefixesRU) {}

  /** No department name in `prefixToDepartment` is the empty string. */
  lemma DepartmentsNonEmpty()
    ensures ValuesNonEmpty(PrefixToDepartment)
  {
    PrefixesABNonEmpty();
    PrefixesCNonEmpty();
    PrefixesDENonEmpty();
    PrefixesFINonEmpty();
    PrefixesJMNonEmpty();
    PrefixesNPNonEmpty();
    PrefixesRUNonEmpty();
    assert ValuesNonEmpty(PrefixProperties);
  }

  /** Every subject name is a non-empty string. */
  lemma SubjectNamesNonEmpty()
    ensures forall e :: e in SubjectVariations ==> e.key != []
  {
    assert forall e :: e in SubjectVariationProperties ==> e.key != [];
  }

  /** Every resource-type word is a non-empty string. */
  lemma ResourceTypeTermsNonEmpty()
    ensures forall t :: t in ResourceTypeTerms ==> t != []
  {
  }
}
