/** matching/seniority.py:187-361: calendar months of employment as a union of inclusive
    month ranges, and the committed level thresholds. */
module Seniority {
  import opened Wrappers
  import Sorting

  datatype RawDate = RawDate(year: int, month: int, day: int)
  type Date = d: RawDate | 1 <= d.month <= 12 && 1 <= d.day <= 31 witness RawDate(1, 1, 1)

  datatype Span = Span(title: string, start: Date, end: Option<Date>, internship: bool, refs: seq<string>)

  /** An inclusive range of month indices. */
  datatype Range = Range(first: int, last: int)

  predicate Before(a: Date, b: Date) {
    if a.year != b.year then a.year < b.year
    else if a.month != b.month then a.month < b.month
    else a.day < b.day
  }

  function MonthIndex(d: Date): int {
    d.year * 12 + (d.month - 1)
  }

  lemma MonthIndexMonotone(a: Date, b: Date)
    requires !Before(b, a)
    ensures MonthIndex(a) <= MonthIndex(b)
  {
  }

  // ----- months as sets -----

  predicate Holds(r: Range, m: int) {
    r.first <= m <= r.last
  }

  function Months(r: Range): set<int> {
    set m | r.first <= m <= r.last && Holds(r, m)
  }

  function Cover(ranges: seq<Range>): set<int> {
    if ranges == [] then {} else Cover(ranges[..|ranges| - 1]) + Months(ranges[|ranges| - 1])
  }

  predicate Proper(ranges: seq<Range>) {
    forall i :: 0 <= i < |ranges| ==> ranges[i].first <= ranges[i].last
  }

  /** Ascending, with at least one uncovered month between neighbours. */
  ghost predicate Separated(ranges: seq<Range>) {
    forall i, j :: 0 <= i < j < |ranges| ==> ranges[i].last + 1 < ranges[j].first
  }

  function Total(ranges: seq<Range>): int {
    if ranges == [] then 0
    else Total(ranges[..|ranges| - 1]) + (ranges[|ranges| - 1].last - ranges[|ranges| - 1].first + 1)
  }

  lemma {:induction false} MonthCount(first: int, last: int)
    requires first <= last + 1
    ensures |Months(Range(first, last))| == last - first + 1
    decreases last - first
  {
    var s := Months(Range(first, last));
    if first > last {
      assert s == {};
    } else {
      MonthCount(first, last - 1);
      LastMonth(first, last);
    }
  }

  lemma LastMonth(first: int, last: int)
    requires first <= last
    ensures Months(Range(first, last)) == Months(Range(first, last - 1)) + {last}
    ensures last !in Months(Range(first, last - 1))
  {
  }

  lemma {:induction false} CoverMembers(ranges: seq<Range>)
    ensures forall m :: m in Cover(ranges) <==> exists i :: 0 <= i < |ranges| && m in Months(ranges[i])
  {
    if ranges != [] {
      var n := |ranges| - 1;
      var init := ranges[..n];
      CoverMembers(init);
      forall m ensures m in Cover(ranges) <==> exists i :: 0 <= i < |ranges| && m in Months(ranges[i]) {
        if m in Cover(init) {
          var i :| 0 <= i < n && m in Months(init[i]);
          assert m in Months(ranges[i]);
        }
        if exists i :: 0 <= i < |ranges| && m in Months(ranges[i]) {
          var i :| 0 <= i < |ranges| && m in Months(ranges[i]);
          if i < n {
            assert m in Months(init[i]);
          }
        }
      }
    }
  }

  lemma EarlierRangesDisjoint(ranges: seq<Range>, r: Range)
    requires forall i :: 0 <= i < |ranges| ==> ranges[i].last + 1 < r.first
    ensures Cover(ranges) !! Months(r)
  {
    CoverMembers(ranges);
    forall m | m in Cover(ranges) ensures m !in Months(r) {
      var i :| 0 <= i < |ranges| && m in Months(ranges[i]);
    }
  }

  /** Disjoint ranges: adding up their lengths counts the months they cover. */
  lemma {:induction false} TotalCounts(ranges: seq<Range>)
    requires Proper(ranges) && Separated(ranges)
    ensures Total(ranges) == |Cover(ranges)|
  {
    if ranges != [] {
      var n := |ranges| - 1;
      var init, r := ranges[..n], ranges[n];
      TotalCounts(init);
      MonthCount(r.first, r.last);
      EarlierRangesDisjoint(init, r);
    }
  }

  // ----- merging -----

  /** Python's order on `(start, end)` tuples. */
  predicate RangeLe(a: Range, b: Range) {
    a.first < b.first || (a.first == b.first && a.last <= b.last)
  }

  lemma CoverPermutation(a: seq<Range>, b: seq<Range>)
    requires forall r :: r in a <==> r in b
    ensures Cover(a) == Cover(b)
  {
    CoverMembers(a);
    CoverMembers(b);
    forall m ensures m in Cover(a) <==> m in Cover(b) {
      if m in Cover(a) {
        var i :| 0 <= i < |a| && m in Months(a[i]);
        assert a[i] in b;
        var j :| 0 <= j < |b| && b[j] == a[i];
      }
      if m in Cover(b) {
        var j :| 0 <= j < |b| && m in Months(b[j]);
        assert b[j] in a;
        var i :| 0 <= i < |a| && a[i] == b[j];
      }
    }
  }

  lemma CoverSnoc(ranges: seq<Range>, r: Range)
    ensures Cover(ranges + [r]) == Cover(ranges) + Months(r)
  {
    assert (ranges + [r])[..|ranges|] == ranges;
  }

  /** Widening the last range absorbs one that touches or overlaps it. */
  lemma CoverWiden(ranges: seq<Range>, r: Range, wide: Range)
    requires ranges != []
    requires var last := ranges[|ranges| - 1];
      && last.first <= r.first <= last.last + 1
      && wide == Range(last.first, if last.last > r.last then last.last else r.last)
    ensures Cover(ranges[|ranges| - 1 := wide]) == Cover(ranges) + Months(r)
  {
    var n := |ranges| - 1;
    assert ranges[n := wide][..n] == ranges[..n];
    assert Months(wide) == Months(ranges[n]) + Months(r);
  }

  /** One turn of the merge loop: widen the last range, or start a new one. */
  function MergeInto(merged: seq<Range>, r: Range): seq<Range>
    requires merged != []
  {
    var n := |merged| - 1;
    if r.first <= merged[n].last + 1
    then merged[n := Range(merged[n].first, if merged[n].last > r.last then merged[n].last else r.last)]
    else merged + [r]
  }

  lemma MergeIntoKeeps(merged: seq<Range>, r: Range)
    requires merged != [] && Separated(merged) && merged[|merged| - 1].first <= r.first
    ensures var m := MergeInto(merged, r);
      && m != [] && Separated(m) && Cover(m) == Cover(merged) + Months(r) && m[|m| - 1].first <= r.first
      && (Proper(merged) && r.first <= r.last ==> Proper(m))
  {
    var n := |merged| - 1;
    if r.first <= merged[n].last + 1 {
      CoverWiden(merged, r, MergeInto(merged, r)[n]);
    } else {
      CoverSnoc(merged, r);
    }
  }

  lemma SortedRanges(ranges: seq<Range>)
    ensures var s := Sorting.Sort(ranges, RangeLe);
      && (Proper(ranges) ==> Proper(s)) && Cover(s) == Cover(ranges)
      && forall i, j :: 0 <= i < j < |s| ==> s[i].first <= s[j].first
  {
    var s := Sorting.Sort(ranges, RangeLe);
    Sorting.SortSorted(ranges, RangeLe);
    Sorting.SortMembers(ranges, RangeLe);
    CoverPermutation(s, ranges);
    assert forall i :: 0 <= i < |s| ==> s[i] in ranges;
    assert forall i, j :: 0 <= i < j < |s| ==> RangeLe(s[i], s[j]);
  }

  /** The list the loop has built after reading these sorted ranges. */
  function Merged(sorted: seq<Range>): (m: seq<Range>)
    ensures m != [] <==> sorted != []
  {
    if |sorted| <= 1 then sorted
    else MergeInto(Merged(sorted[..|sorted| - 1]), sorted[|sorted| - 1])
  }

  lemma {:induction false} MergedKeeps(sorted: seq<Range>)
    requires sorted != []
    requires forall i, j :: 0 <= i < j < |sorted| ==> sorted[i].first <= sorted[j].first
    ensures var m := Merged(sorted);
      && (Proper(sorted) ==> Proper(m)) && Separated(m) && Cover(m) == Cover(sorted)
      && m[|m| - 1].first <= sorted[|sorted| - 1].first
  {
    if |sorted| > 1 {
      var n := |sorted| - 1;
      MergedKeeps(sorted[..n]);
      MergeIntoKeeps(Merged(sorted[..n]), sorted[n]);
    }
  }

  /** matching/seniority.py:198-212. */
  method MergeMonthRanges(ranges: seq<Range>) returns (merged: seq<Range>)
    ensures Separated(merged) && Cover(merged) == Cover(ranges) && (Proper(ranges) ==> Proper(merged))
  {
    if ranges == [] { return []; }
    var sorted := Sorting.Sort(ranges, RangeLe);
    merged := MergeSorted(sorted);
    SortedRanges(ranges);
    MergedKeeps(sorted);
  }

  /** matching/seniority.py:205-212. */
  method MergeSorted(sorted: seq<Range>) returns (merged: seq<Range>)
    requires sorted != []
    ensures merged == Merged(sorted)
  {
    merged := [sorted[0]];
    for i := 1 to |sorted|
      invariant merged == Merged(sorted[..i])
    {
      var r, last := sorted[i], merged[|merged| - 1];
      assert sorted[..i + 1][..i] == sorted[..i];
      if r.first <= last.last + 1 {
        merged := merged[|merged| - 1 := Range(last.first, if last.last > r.last then last.last else r.last)];
      } else {
        merged := merged + [r];
      }
    }
    assert sorted[..|sorted|] == sorted;
  }

  // ----- tenure -----

  function EndOf(s: Span, asOf: Date): Date {
    if s.end.Some? then s.end.value else asOf
  }

  predicate Counts(s: Span, asOf: Date) {
    !s.internship && !Before(EndOf(s, asOf), s.start)
  }

  function RangeOf(s: Span, asOf: Date): Range {
    Range(MonthIndex(s.start), MonthIndex(EndOf(s, asOf)))
  }

  /** The calendar months this span contributes. */
  function MonthsOf(s: Span, asOf: Date): set<int> {
    if Counts(s, asOf) then Months(RangeOf(s, asOf)) else {}
  }

  /** Every month covered by some counted span. */
  function Worked(spans: seq<Span>, asOf: Date): set<int> {
    if spans == [] then {} else Worked(spans[..|spans| - 1], asOf) + MonthsOf(spans[|spans| - 1], asOf)
  }

  /** matching/seniority.py:215-225: overlapping roles are counted once. */
  method TotalMonths(spans: seq<Span>, asOf: Date) returns (total: int)
    ensures total == |Worked(spans, asOf)|
  {
    var ranges: seq<Range> := [];
    for i := 0 to |spans|
      invariant Proper(ranges) && Cover(ranges) == Worked(spans[..i], asOf)
    {
      var s := spans[i];
      assert spans[..i + 1][..i] == spans[..i];
      if s.internship { continue; }
      var end := EndOf(s, asOf);
      if Before(end, s.start) { continue; }
      MonthIndexMonotone(s.start, end);
      CoverSnoc(ranges, RangeOf(s, asOf));
      ranges := ranges + [Range(MonthIndex(s.start), MonthIndex(end))];
    }
    assert spans[..|spans|] == spans;
    var merged := MergeMonthRanges(ranges);
    TotalCounts(merged);
    total := 0;
    for i := 0 to |merged|
      invariant total == Total(merged[..i])
    {
      assert merged[..i + 1][..i] == merged[..i];
      total := total + (merged[i].last - merged[i].first + 1);
    }
    assert merged[..|merged|] == merged;
  }

  lemma {:induction false} WorkedMembers(spans: seq<Span>, asOf: Date, m: int)
    ensures m in Worked(spans, asOf) <==> exists s :: s in spans && m in MonthsOf(s, asOf)
  {
    if spans != [] {
      var n := |spans| - 1;
      WorkedMembers(spans[..n], asOf, m);
      assert spans == spans[..n] + [spans[n]];
    }
  }

  lemma SubsetSize(a: set<int>, b: set<int>)
    requires a <= b
    ensures |a| <= |b|
  {
    assert b == a + (b - a);
  }

  lemma MonthsOfMonotone(s: Span, a: Date, b: Date)
    requires !Before(b, a)
    ensures MonthsOf(s, a) <= MonthsOf(s, b)
  {
    MonthIndexMonotone(a, b);
  }

  /** More spans, in any order, or a later date never mean fewer months. */
  lemma WorkedMonotone(spans: seq<Span>, more: seq<Span>, a: Date, b: Date)
    requires !Before(b, a) && forall s :: s in spans ==> s in more
    ensures Worked(spans, a) <= Worked(more, b)
    ensures |Worked(spans, a)| <= |Worked(more, b)|
  {
    forall m | m in Worked(spans, a) ensures m in Worked(more, b) {
      WorkedMembers(spans, a, m);
      WorkedMembers(more, b, m);
      var s :| s in spans && m in MonthsOf(s, a);
      MonthsOfMonotone(s, a, b);
    }
    SubsetSize(Worked(spans, a), Worked(more, b));
  }

  /** The total does not depend on the order, or the repetition, of the spans. */
  lemma WorkedPermutation(spans: seq<Span>, other: seq<Span>, asOf: Date)
    requires forall s :: s in spans <==> s in other
    ensures Worked(spans, asOf) == Worked(other, asOf)
  {
    WorkedMonotone(spans, other, asOf, asOf);
    WorkedMonotone(other, spans, asOf, asOf);
  }

  function Select(spans: seq<Span>, p: Span -> bool): (r: seq<Span>)
    ensures forall s :: s in r <==> s in spans && p(s)
  {
    if spans == [] then []
    else (if p(spans[0]) then [spans[0]] else []) + Select(spans[1..], p)
  }

  /** matching/seniority.py:242-256; `matches` is the alias test on titles. */
  method MonthsInFamily(spans: seq<Span>, aliases: seq<string>, matches: (Span, string) -> bool, asOf: Date)
      returns (months: int)
    ensures months == |Worked(Select(spans, InFamily(aliases, matches)), asOf)|
    ensures 0 <= months <= |Worked(spans, asOf)|
  {
    var family := Select(spans, InFamily(aliases, matches));
    WorkedMonotone(family, spans, asOf, asOf);
    if aliases == [] {
      NoneSelected(spans, InFamily(aliases, matches));
      return 0;
    }
    months := TotalMonths(family, asOf);
  }

  function InFamily(aliases: seq<string>, matches: (Span, string) -> bool): Span -> bool {
    (s: Span) => !s.internship && exists i :: 0 <= i < |aliases| && matches(s, aliases[i])
  }

  lemma {:induction false} NoneSelected(spans: seq<Span>, p: Span -> bool)
    requires forall s :: !p(s)
    ensures Select(spans, p) == []
  {
    if spans != [] {
      NoneSelected(spans[1..], p);
    }
  }

  // ----- level thresholds -----

  datatype Level = Junior | Mid | Senior | Staff | Principal

  function Floor(l: Level): nat {
    match l case Junior => 0 case Mid => 24 case Senior => 60 case Staff => 120 case Principal => 180
  }

  predicate NeedsLeadership(l: Level) {
    l in {Staff, Principal}
  }

  function Height(l: Level): nat {
    match l case Junior => 0 case Mid => 1 case Senior => 2 case Staff => 3 case Principal => 4
  }

  /** The reference lists are sorted and free of repetitions; they are modelled as sets. */
  datatype Assessment = Assessment(
    total: int, family: int, leadership: bool, leadershipRefs: set<string>, tenureRefs: set<string>,
    meets: bool, gap: int)

  /** The references that spans satisfying `p` carry. */
  function RefsOf(spans: seq<Span>, p: Span -> bool): set<string> {
    if spans == [] then {}
    else
      var last := spans[|spans| - 1];
      RefsOf(spans[..|spans| - 1], p) + if p(last) then set r | r in last.refs else {}
  }

  lemma {:induction false} RefsMembers(spans: seq<Span>, p: Span -> bool, r: string)
    ensures r in RefsOf(spans, p) <==> exists s :: s in spans && p(s) && r in s.refs
  {
    if spans != [] {
      var n := |spans| - 1;
      RefsMembers(spans[..n], p, r);
      assert spans == spans[..n] + [spans[n]];
    }
  }

  function Leading(leads: Span -> bool): Span -> bool { (s: Span) => !s.internship && leads(s) }
  function Anyone(): Span -> bool { (s: Span) => true }

  predicate Leads(spans: seq<Span>, leads: Span -> bool) {
    exists i :: 0 <= i < |spans| && !spans[i].internship && leads(spans[i])
  }

  /** The bar a level sets, stated on the employment history itself. */
  ghost predicate Meets(spans: seq<Span>, leads: Span -> bool, l: Level, asOf: Date) {
    |Worked(spans, asOf)| >= Floor(l) && (NeedsLeadership(l) ==> Leads(spans, leads))
  }

  /** matching/seniority.py:319-361; `level` is `None` when the posting's level is missing or
      unknown. The references cited are exactly those of the spans that count towards a claim. */
  method Assess(spans: seq<Span>, leads: Span -> bool, level: Option<Level>, aliases: seq<string>,
                matches: (Span, string) -> bool, asOf: Date)
      returns (r: Option<Assessment>)
    ensures r.None? <==> spans == []
    ensures r.Some? ==> r.value.total == |Worked(spans, asOf)| && r.value.leadership == Leads(spans, leads)
    ensures r.Some? ==> r.value.family == |Worked(Select(spans, InFamily(aliases, matches)), asOf)| <= r.value.total
    ensures r.Some? ==> forall x :: x in r.value.leadershipRefs <==>
      exists s :: s in spans && !s.internship && leads(s) && x in s.refs
    ensures r.Some? ==> forall x :: x in r.value.tenureRefs <==> exists s :: s in spans && x in s.refs
    ensures r.Some? && level.None? ==> !r.value.meets && r.value.gap == 0
    ensures r.Some? && level.Some? ==>
      && (r.value.meets <==> Meets(spans, leads, level.value, asOf))
      && r.value.gap >= 0 && (r.value.gap == 0 <==> r.value.total >= Floor(level.value))
      && (r.value.gap > 0 ==> r.value.total + r.value.gap == Floor(level.value))
  {
    if spans == [] { return None; }
    var total := TotalMonths(spans, asOf);
    var family := MonthsInFamily(spans, aliases, matches, asOf);
    var leadership, leadershipRefs := PeopleLeadership(spans, leads);
    var tenureRefs := RefsOf(spans, Anyone());
    forall x ensures x in tenureRefs <==> exists s :: s in spans && x in s.refs {
      RefsMembers(spans, Anyone(), x);
    }
    if level.None? { return Some(Assessment(total, family, leadership, leadershipRefs, tenureRefs, false, 0)); }
    var short := if Floor(level.value) > total then Floor(level.value) - total else 0;
    var ok := !NeedsLeadership(level.value) || leadership;
    r := Some(Assessment(total, family, leadership, leadershipRefs, tenureRefs, short == 0 && ok, short));
  }

  /** matching/seniority.py:259-272. */
  method PeopleLeadership(spans: seq<Span>, leads: Span -> bool) returns (found: bool, refs: set<string>)
    ensures found == Leads(spans, leads)
    ensures forall x :: x in refs <==> exists s :: s in spans && !s.internship && leads(s) && x in s.refs
  {
    found, refs := false, {};
    for i := 0 to |spans|
      invariant found == exists j :: 0 <= j < i && !spans[j].internship && leads(spans[j])
      invariant refs == RefsOf(spans[..i], Leading(leads))
    {
      var s := spans[i];
      assert spans[..i + 1][..i] == spans[..i];
      if s.internship { continue; }
      if leads(s) {
        found, refs := true, refs + set r | r in s.refs;
      }
    }
    assert spans[..|spans|] == spans;
    forall x ensures x in refs <==> exists s :: s in spans && !s.internship && leads(s) && x in s.refs {
      RefsMembers(spans, Leading(leads), x);
    }
  }

  /** Meeting a level means meeting every lower one, and neither more employment nor the passage
      of time loses a level once met. */
  lemma LevelsNest(spans: seq<Span>, more: seq<Span>, leads: Span -> bool, low: Level, high: Level, a: Date, b: Date)
    requires Height(low) <= Height(high) && !Before(b, a) && forall s :: s in spans ==> s in more
    requires Meets(spans, leads, high, a)
    ensures Meets(more, leads, low, b)
  {
    WorkedMonotone(spans, more, a, b);
    if NeedsLeadership(low) {
      var i :| 0 <= i < |spans| && !spans[i].internship && leads(spans[i]);
      assert spans[i] in more;
      var j :| 0 <= j < |more| && more[j] == spans[i];
    }
  }

  // ----- in the terms of the calendar -----

  /** Earlier in the calendar. */
  predicate Precedes(a: Date, b: Date) {
    a.year < b.year || (a.year == b.year && (a.month < b.month || (a.month == b.month && a.day < b.day)))
  }

  /** One role counts every calendar month from its first to its last, twelve to the year; an open
      role runs to the given date; an internship, or a role that ends before it starts, counts
      nothing. */
  lemma OneSpan(s: Span, asOf: Date)
    ensures var end := if s.end.Some? then s.end.value else asOf;
      |Worked([s], asOf)| ==
      if s.internship || Precedes(end, s.start) then 0
      else (end.year - s.start.year) * 12 + (end.month - s.start.month) + 1
  {
    assert [s][..0] == [];
    assert Worked([s], asOf) == Worked([], asOf) + MonthsOf(s, asOf) == MonthsOf(s, asOf);
    var end := EndOf(s, asOf);
    assert Before(end, s.start) <==> Precedes(end, s.start);
    if Counts(s, asOf) {
      MonthIndexMonotone(s.start, end);
      MonthCount(MonthIndex(s.start), MonthIndex(end));
    }
  }

  /** The bars, in months, and who needs leadership. */
  lemma LevelBars(spans: seq<Span>, leads: Span -> bool, asOf: Date)
    ensures var months, leader := |Worked(spans, asOf)|, Leads(spans, leads);
      && Meets(spans, leads, Junior, asOf)
      && (Meets(spans, leads, Mid, asOf) <==> months >= 2 * 12)
      && (Meets(spans, leads, Senior, asOf) <==> months >= 5 * 12)
      && (Meets(spans, leads, Staff, asOf) <==> months >= 10 * 12 && leader)
      && (Meets(spans, leads, Principal, asOf) <==> months >= 15 * 12 && leader)
  {
  }

  /** The family's months are those of the counted spans that match one of its aliases. */
  lemma FamilyWorked(spans: seq<Span>, aliases: seq<string>, matches: (Span, string) -> bool, asOf: Date, m: int)
    ensures m in Worked(Select(spans, InFamily(aliases, matches)), asOf) <==>
      exists s, a :: s in spans && a in aliases && matches(s, a) && m in MonthsOf(s, asOf)
  {
    var family := Select(spans, InFamily(aliases, matches));
    WorkedMembers(family, asOf, m);
    if s :| s in family && m in MonthsOf(s, asOf) {
      var i :| 0 <= i < |aliases| && matches(s, aliases[i]);
      assert aliases[i] in aliases;
    }
    if s, a :| s in spans && a in aliases && matches(s, a) && m in MonthsOf(s, asOf) {
      var i :| 0 <= i < |aliases| && aliases[i] == a;
      assert InFamily(aliases, matches)(s);
      assert s in family;
    }
  }
}
