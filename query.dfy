/**
 * The query side of the index page: the free-text search over the
 * directory, the three quick statistics shown above the list (number of
 * locations, number with a low wait, nearest distance) and the rule that
 * shows "No locations found".
 */
module Query {
  import opened Wrappers
  import opened Text
  import opened Seqs
  import opened Locations

  /**
   * The search test for one record: its lower-cased name or lower-cased
   * type name contains the lower-cased query.
   */
  predicate Matches(l: Location, query: string)
    ensures query == [] ==> Matches(l, query)
    ensures Matches(l, query) ==> |query| <= |l.name| || |query| <= |TypeName(l.kind)|
  {
    var q := Lower(query);
    Contains(Lower(l.name), q) || Contains(Lower(TypeName(l.kind)), q)
  }

  /** The search test as the predicate handed to the filter. */
  function MatchesQuery(query: string): Location -> bool {
    l => Matches(l, query)
  }

  /** `filteredLocations`: the records of `dir` that match `query`, in directory order. */
  function FilterByQuery(dir: seq<Location>, query: string): (found: seq<Location>)
    ensures |found| <= |dir|
    ensures forall l :: l in found <==> l in dir && Matches(l, query)
  {
    Filter(dir, MatchesQuery(query))
  }

  /**
   * The search result is exactly the matching positions of the directory, in
   * increasing order: sound, complete, duplicates kept, order preserved.
   */
  lemma FilterByQuerySelects(dir: seq<Location>, query: string)
    ensures exists idx :: Selects(FilterByQuery(dir, query), dir, MatchesQuery(query), idx)
  {
    assert FilterByQuery(dir, query) == Filter(dir, MatchesQuery(query));
    FilterSelects(dir, MatchesQuery(query));
  }

  /** The empty query matches every record, so it leaves the directory as it is. */
  lemma FilterByEmptyQuery(dir: seq<Location>)
    ensures FilterByQuery(dir, "") == dir
  {
    FilterKeepsAll(dir, MatchesQuery(""));
  }

  /** Queries that differ only in the case of ASCII letters give the same result. */
  lemma FilterByCaseVariantQuery(dir: seq<Location>, q1: string, q2: string)
    requires |q1| == |q2| && forall i :: 0 <= i < |q1| ==> SameIgnoringCase(q1[i], q2[i])
    ensures FilterByQuery(dir, q1) == FilterByQuery(dir, q2)
  {
    LowerSameIff(q1, q2);
    FilterByQueryCaseInsensitive(dir, q1, q2);
  }

  /** Queries that lower-case alike give the same result, e.g. "ER" and "er". */
  lemma FilterByQueryCaseInsensitive(dir: seq<Location>, q1: string, q2: string)
    requires Lower(q1) == Lower(q2)
    ensures FilterByQuery(dir, q1) == FilterByQuery(dir, q2)
  {
    FilterCongruent(dir, MatchesQuery(q1), MatchesQuery(q2));
  }

  /** The placeholder's "ER" finds what "er" finds. */
  lemma UpperCaseQueryExample(dir: seq<Location>)
    ensures FilterByQuery(dir, "ER") == FilterByQuery(dir, "er")
  {
    assert Lower("ER") == Lower("er");
    FilterByQueryCaseInsensitive(dir, "ER", "er");
  }

  /** The result depends on the query only through its lower-cased form. */
  lemma FilterByLoweredQuery(dir: seq<Location>, query: string)
    ensures FilterByQuery(dir, Lower(query)) == FilterByQuery(dir, query)
  {
    LowerIdempotent(query);
    FilterByQueryCaseInsensitive(dir, Lower(query), query);
  }

  /** The search only narrows the directory, so unique identifiers stay unique. */
  lemma {:induction false} FilterKeepsValid(dir: seq<Location>, query: string)
    requires ValidDirectory(dir)
    ensures ValidDirectory(FilterByQuery(dir, query))
  {
    FilterSelects(dir, MatchesQuery(query));
    var found := FilterByQuery(dir, query);
    var idx :| Selects(found, dir, MatchesQuery(query), idx);
    forall i, j | 0 <= i < j < |found|
      ensures found[i].id != found[j].id
    {
      assert idx[i] < idx[j];
      assert found[i] == dir[idx[i]] && found[j] == dir[idx[j]];
    }
  }

  predicate IsLow(l: Location) {
    l.waitCategory == Low
  }

  /** The "Low Wait" figure: how many of the listed records are in the low category. */
  function LowWaitCount(filtered: seq<Location>): (n: nat)
    ensures n <= |filtered|
    ensures n == |set i | 0 <= i < |filtered| && filtered[i].waitCategory == Low|
  {
    FilterLength(filtered, IsLow);
    assert Positions(filtered, IsLow) == set i | 0 <= i < |filtered| && filtered[i].waitCategory == Low;
    |Filter(filtered, IsLow)|
  }

  /**
   * The "Nearest" figure: the least distance among the listed records. The
   * source takes Math.min of the possibly empty list of distances, which is
   * Infinity for an empty list; None guards that case instead.
   */
  function NearestDistance(filtered: seq<Location>): (d: Option<real>)
    ensures d.None? <==> filtered == []
    ensures d.Some? ==>
              (exists i :: 0 <= i < |filtered| && filtered[i].distance == d.value) &&
              (forall i :: 0 <= i < |filtered| ==> d.value <= filtered[i].distance)
  {
    var distances := Distances(filtered);
    assert forall i :: 0 <= i < |filtered| ==> distances[i] in distances;
    Minimum(distances)
  }

  /** `filteredLocations.map((l) => l.distance)`. */
  function Distances(filtered: seq<Location>): (ds: seq<real>)
    ensures |ds| == |filtered| && forall i :: 0 <= i < |filtered| ==> ds[i] == filtered[i].distance
  {
    seq(|filtered|, i requires 0 <= i < |filtered| => filtered[i].distance)
  }

  /** The "Nearest" figure as the source computes it, Infinity included. */
  function NearestDistanceAsWritten(filtered: seq<Location>): (d: Extended)
    ensures d.PlusInfinity? <==> filtered == []
    ensures d.Finite? ==>
              (exists i :: 0 <= i < |filtered| && filtered[i].distance == d.value) &&
              (forall i :: 0 <= i < |filtered| ==> d.value <= filtered[i].distance)
  {
    MathMinIsGuardedByMinimum(Distances(filtered));
    assert NearestDistance(filtered) == Minimum(Distances(filtered));
    MathMin(Distances(filtered))
  }

  /**
   * As written, a search that matches nothing makes the "Nearest" figure
   * Math.min() of no distances, Infinity, which the page renders as
   * "Infinity mi".
   */
  lemma NoMatchShowsInfinity(dir: seq<Location>, query: string)
    requires forall l :: l in dir ==> !Matches(l, query)
    ensures NearestDistanceAsWritten(FilterByQuery(dir, query)) == PlusInfinity
  {
    EmptyStateRule(dir, query);
  }

  /** The guarded figure differs from the source's only where the source shows Infinity. */
  lemma NearestDistanceGuardsInfinity(filtered: seq<Location>)
    ensures NearestDistance(filtered).None? <==> NearestDistanceAsWritten(filtered) == PlusInfinity
    ensures NearestDistance(filtered).Some? ==>
              NearestDistanceAsWritten(filtered) == Finite(NearestDistance(filtered).value)
  {
    MathMinIsGuardedByMinimum(Distances(filtered));
  }

  /** The quick statistics shown above the list. */
  datatype Stats = Stats(count: nat, lowWaitCount: nat, nearest: Option<real>)

  function Aggregate(filtered: seq<Location>): (st: Stats)
    ensures st.count == |filtered|
    ensures st.lowWaitCount <= st.count
    ensures st.lowWaitCount == |set i | 0 <= i < |filtered| && filtered[i].waitCategory == Low|
    ensures st.nearest.None? <==> st.count == 0
    ensures st.nearest.Some? ==>
              (exists i :: 0 <= i < |filtered| && filtered[i].distance == st.nearest.value) &&
              (forall i :: 0 <= i < |filtered| ==> st.nearest.value <= filtered[i].distance)
  {
    Stats(|filtered|, LowWaitCount(filtered), NearestDistance(filtered))
  }

  /** With nothing listed the figures are 0, 0 and no nearest distance, rather than Infinity. */
  lemma AggregateOfNothing()
    ensures Aggregate([]) == Stats(0, 0, None)
  {
    var nothing: seq<Location> := [];
    assert (set i | 0 <= i < |nothing| && nothing[i].waitCategory == Low) == {};
  }

  /** The list area shows "No locations found" instead of cards. */
  predicate ShowsNoLocationsFound(filtered: seq<Location>)
    ensures ShowsNoLocationsFound(filtered) <==> NearestDistance(filtered).None?
    ensures ShowsNoLocationsFound(filtered) <==> Aggregate(filtered).count == 0
  {
    |filtered| == 0
  }

  /**
   * The empty state appears exactly when no directory record matches the
   * query, and exactly when there is no nearest distance to show.
   */
  lemma EmptyStateRule(dir: seq<Location>, query: string)
    ensures ShowsNoLocationsFound(FilterByQuery(dir, query)) <==> forall l :: l in dir ==> !Matches(l, query)
    ensures ShowsNoLocationsFound(FilterByQuery(dir, query)) <==> NearestDistance(FilterByQuery(dir, query)).None?
  {
    var found := FilterByQuery(dir, query);
    if found != [] {
      assert found[0] in found;
    }
  }

  /** The string has no letter u, in either case. */
  predicate LacksLetterU(s: string) {
    forall i :: 0 <= i < |s| ==> s[i] != 'u' && s[i] != 'U'
  }

  /** A record whose name lacks the letter u in either case, and that is no urgent-care centre, does not match "urgent". */
  lemma NotUrgent(l: Location)
    requires LacksLetterU(l.name) && l.kind != UrgentCare
    ensures !Matches(l, "urgent")
  {
    assert 'u' !in l.name && 'U' !in l.name;
    var q := Lower("urgent");
    assert q == "urgent";
    LowerAvoids(l.name, 'u');
    NotContainedWithoutFirstChar(Lower(l.name), q);
    var t := TypeName(l.kind);
    assert 'u' !in t && 'U' !in t;
    LowerAvoids(t, 'u');
    NotContainedWithoutFirstChar(Lower(t), q);
  }

  /** Every urgent-care centre matches "urgent", through its type name. */
  lemma UrgentByType(l: Location)
    requires l.kind == UrgentCare
    ensures Matches(l, "urgent")
  {
    var q := Lower("urgent");
    assert q == "urgent";
    var u := Lower(TypeName(l.kind));
    assert u[0] == 'u' && u[1] == 'r' && u[2] == 'g' && u[3] == 'e' && u[4] == 'n' && u[5] == 't';
    assert u[..6] == q;
    assert IsPrefix(q, u);
  }

  /**
   * Five records of which only the second and the fifth are urgent-care
   * centres, and the others have no u in their names: the "urgent" search
   * keeps those two.
   */
  lemma UrgentPicksSecondAndFifth(m: seq<Location>)
    requires |m| == 5 && m[1].kind == UrgentCare && m[4].kind == UrgentCare
    requires forall i :: 0 <= i < 5 && i != 1 && i != 4 ==>
               m[i].kind != UrgentCare && LacksLetterU(m[i].name)
    ensures FilterByQuery(m, "urgent") == [m[1], m[4]]
  {
    NotUrgent(m[0]);
    UrgentByType(m[1]);
    NotUrgent(m[2]);
    NotUrgent(m[3]);
    UrgentByType(m[4]);
    var p := MatchesQuery("urgent");
    assert !p(m[0]) && p(m[1]) && !p(m[2]) && !p(m[3]) && p(m[4]);
    FilterKeepsSecondAndFifth(m, p);
  }

  /** Searching the demonstration directory for "urgent" lists the two urgent-care centres. */
  lemma UrgentScenario()
    ensures FilterByQuery(MockLocations, "urgent") == [MockLocations[1], MockLocations[4]]
    ensures Aggregate(FilterByQuery(MockLocations, "urgent")) == Stats(2, 0, Some(1.2))
  {
    var m := MockLocations;
    MockNamesWithoutU();
    UrgentPicksSecondAndFifth(m);
    UrgentStats();
  }

  /** The three demonstration records that are not urgent-care centres have no u in their names. */
  lemma MockNamesWithoutU()
    ensures LacksLetterU(MockLocations[0].name) && LacksLetterU(MockLocations[2].name)
    ensures LacksLetterU(MockLocations[3].name)
  {
    FirstNameWithoutU();
    ThirdNameWithoutU();
    FourthNameWithoutU();
  }

  lemma FirstNameWithoutU()
    ensures LacksLetterU(MockLocations[0].name)
  {
    assert MockLocations[0].name == "City Emergency Medical Center";
  }

  lemma ThirdNameWithoutU()
    ensures LacksLetterU(MockLocations[2].name)
  {
    assert MockLocations[2].name == "Metro General Hospital ER";
  }

  lemma FourthNameWithoutU()
    ensures LacksLetterU(MockLocations[3].name)
  {
    assert MockLocations[3].name == "FastTrack Medical Clinic";
  }

  /** The statistics of the two urgent-care centres of the demonstration directory. */
  lemma UrgentStats()
    ensures Aggregate([MockLocations[1], MockLocations[4]]) == Stats(2, 0, Some(1.2))
  {
    var found := [MockLocations[1], MockLocations[4]];
    assert (set i | 0 <= i < |found| && found[i].waitCategory == Low) == {};
    assert NearestDistance(found) == Some(1.2);
  }
}
