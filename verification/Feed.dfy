/** matching/recommendation_engine.py:220-272: family deduplication, ranking, and the
    per-employer caps of the composed feed. */
module Feed {
  import opened Wrappers
  import Strings
  import Sorting

  datatype Gate = ForYou | Review | Excluded

  datatype RankKey = RankKey(
    tier: int, fit: real, evidence: real, affinity: real, geography: real, freshness: real, source: real)

  datatype Recommendation = Recommendation(id: string, gate: Gate, key: RankKey)

  /** `family` is the stripped family key and `employer` the stripped, case-folded organization;
      both are empty when absent. */
  datatype Candidate = Candidate(id: string, family: string, employer: string)

  // ----- order -----

  /** Python's `>` on rank-key tuples. */
  predicate Above(a: RankKey, b: RankKey) {
    if a.tier != b.tier then a.tier > b.tier
    else if a.fit != b.fit then a.fit > b.fit
    else if a.evidence != b.evidence then a.evidence > b.evidence
    else if a.affinity != b.affinity then a.affinity > b.affinity
    else if a.geography != b.geography then a.geography > b.geography
    else if a.freshness != b.freshness then a.freshness > b.freshness
    else a.source > b.source
  }

  /** The sort key `(negated rank_key, opportunity_id)`. */
  predicate Ahead(a: Recommendation, b: Recommendation) {
    Above(a.key, b.key) || (a.key == b.key && Strings.Le(a.id, b.id))
  }

  lemma AheadPreorder()
    ensures Sorting.Preorder(Ahead)
  {
    forall a: Recommendation, b: Recommendation ensures Ahead(a, b) || Ahead(b, a) {
      Strings.LeTotal(a.id, b.id);
    }
    forall a: Recommendation, b: Recommendation, c: Recommendation | Ahead(a, b) && Ahead(b, c)
      ensures Ahead(a, c)
    {
      if a.key == b.key == c.key {
        Strings.LeTransitive(a.id, b.id, c.id);
      }
    }
  }

  /** matching/recommendation_engine.py:133-138: the seven components, most important first. */
  function Components(k: RankKey): seq<real> {
    [k.tier as real, k.fit, k.evidence, k.affinity, k.geography, k.freshness, k.source]
  }

  /** At the first component where the keys differ, `a` has the greater one. */
  ghost predicate Outranks(a: RankKey, b: RankKey) {
    exists i :: GreaterAt(a, b, i)
  }

  ghost predicate GreaterAt(a: RankKey, b: RankKey, i: int) {
    0 <= i < 7 && Components(a)[i] > Components(b)[i] && forall j :: 0 <= j < i ==> Components(a)[j] == Components(b)[j]
  }

  lemma AboveIff(a: RankKey, b: RankKey)
    ensures Above(a, b) <==> Outranks(a, b)
  {
    var c, d := Components(a), Components(b);
    assert c[0] == a.tier as real && c[1] == a.fit && c[2] == a.evidence && c[3] == a.affinity;
    assert c[4] == a.geography && c[5] == a.freshness && c[6] == a.source;
    assert d[0] == b.tier as real && d[1] == b.fit && d[2] == b.evidence && d[3] == b.affinity;
    assert d[4] == b.geography && d[5] == b.freshness && d[6] == b.source;
    if Above(a, b) {
      var i := if a.tier != b.tier then 0 else if a.fit != b.fit then 1 else if a.evidence != b.evidence then 2
               else if a.affinity != b.affinity then 3 else if a.geography != b.geography then 4
               else if a.freshness != b.freshness then 5 else 6;
      assert GreaterAt(a, b, i);
    }
    if i :| GreaterAt(a, b, i) {
      assert c[i] > d[i];
    }
  }

  /** A greater tier wins, and at equal tiers a better fit. */
  lemma TierThenFit(a: RankKey, b: RankKey)
    ensures a.tier > b.tier || (a.tier == b.tier && a.fit > b.fit) ==> Outranks(a, b) && !Outranks(b, a)
  {
    AboveIff(a, b);
    AboveIff(b, a);
  }

  ghost predicate UniqueIds(recs: seq<Recommendation>) {
    forall i, j :: 0 <= i < j < |recs| ==> recs[i].id != recs[j].id
  }

  lemma AheadSeparates(recs: seq<Recommendation>)
    requires UniqueIds(recs)
    ensures Sorting.Separates(recs, Ahead)
  {
    forall x, y | x in recs && y in recs && Ahead(x, y) && Ahead(y, x) ensures x == y {
      Strings.LeAntisymmetric(x.id, y.id);
    }
  }

  // ----- candidates by id -----

  /** `{c.opportunity_id: c for c in candidates}`: the last one wins. */
  function ById(candidates: seq<Candidate>): map<string, Candidate> {
    if candidates == [] then map[]
    else
      var last := candidates[|candidates| - 1];
      ById(candidates[..|candidates| - 1])[last.id := last]
  }

  function FamilyOf(byId: map<string, Candidate>, id: string): string {
    if id in byId then byId[id].family else ""
  }

  function EmployerOf(byId: map<string, Candidate>, id: string): string {
    if id in byId then byId[id].employer else ""
  }

  function CandidateId(c: Candidate): string { c.id }

  lemma {:induction false} ByIdLookup(candidates: seq<Candidate>)
    requires Sorting.DistinctBy(candidates, CandidateId)
    ensures forall id :: id in ById(candidates) <==> exists c :: c in candidates && c.id == id
    ensures forall c :: c in candidates ==> c.id in ById(candidates) && ById(candidates)[c.id] == c
  {
    if candidates != [] {
      var n := |candidates| - 1;
      var init, last := candidates[..n], candidates[n];
      assert forall i :: 0 <= i < n ==> init[i] == candidates[i];
      ByIdLookup(init);
      assert candidates == init + [last];
      forall c | c in init ensures c.id != last.id {
        var i :| 0 <= i < n && init[i] == c;
        assert CandidateId(candidates[i]) != CandidateId(candidates[n]);
      }
    }
  }

  lemma ByIdPermutation(a: seq<Candidate>, b: seq<Candidate>)
    requires Sorting.DistinctBy(a, CandidateId) && multiset(a) == multiset(b)
    ensures ById(a) == ById(b)
  {
    Sorting.PermutationDistinct(a, b, CandidateId);
    Sorting.SameMembers(a, b);
    ByIdLookup(a);
    ByIdLookup(b);
  }

  // ----- family deduplication -----

  /** The two accumulators of the first loop; `order` is the dict's insertion order. */
  datatype Groups = Groups(ungrouped: seq<Recommendation>, order: seq<string>, best: map<string, Recommendation>)

  predicate Beats(item: Recommendation, previous: Recommendation) {
    Above(item.key, previous.key) || (item.key == previous.key && Strings.Lt(item.id, previous.id))
  }

  function Absorb(g: Groups, item: Recommendation, byId: map<string, Candidate>): Groups {
    var family := FamilyOf(byId, item.id);
    if item.gate != ForYou then g
    else if family == "" then g.(ungrouped := g.ungrouped + [item])
    else if family !in g.best then g.(order := g.order + [family], best := g.best[family := item])
    else if Beats(item, g.best[family]) then g.(best := g.best[family := item])
    else g
  }

  function Grouping(recs: seq<Recommendation>, byId: map<string, Candidate>): Groups {
    if recs == [] then Groups([], [], map[])
    else Absorb(Grouping(recs[..|recs| - 1], byId), recs[|recs| - 1], byId)
  }

  ghost predicate WellOrdered(g: Groups) {
    && (forall f :: f in g.best <==> f in g.order)
    && (forall i, j :: 0 <= i < j < |g.order| ==> g.order[i] != g.order[j])
  }

  function Values(order: seq<string>, best: map<string, Recommendation>): (r: seq<Recommendation>)
    requires forall f :: f in order ==> f in best
    ensures |r| == |order| && forall i :: 0 <= i < |r| ==> r[i] == best[order[i]]
  {
    seq(|order|, (i: int) requires 0 <= i < |order| => best[order[i]])
  }

  /** The deduplicated inventory. */
  function Items(g: Groups): seq<Recommendation>
    requires forall f :: f in g.order ==> f in g.best
  {
    g.ungrouped + Values(g.order, g.best)
  }

  lemma {:induction false} GroupingWellOrdered(recs: seq<Recommendation>, byId: map<string, Candidate>)
    ensures WellOrdered(Grouping(recs, byId))
  {
    if recs != [] {
      GroupingWellOrdered(recs[..|recs| - 1], byId);
    }
  }

  /** `x` speaks for its family: it is for_you, and ungrouped or ahead of every family member. */
  ghost predicate Represents(recs: seq<Recommendation>, byId: map<string, Candidate>, x: Recommendation) {
    && x in recs && x.gate == ForYou
    && (FamilyOf(byId, x.id) != "" ==>
          forall y :: y in recs && y.gate == ForYou && FamilyOf(byId, y.id) == FamilyOf(byId, x.id) ==> Ahead(x, y))
  }

  /** What the first loop knows after any prefix: each family's best so far, and every ungrouped
      item. */
  ghost predicate Tracks(g: Groups, recs: seq<Recommendation>, byId: map<string, Candidate>) {
    && (forall x :: x in g.ungrouped <==> x in recs && x.gate == ForYou && FamilyOf(byId, x.id) == "")
    && (forall x :: x in recs && x.gate == ForYou && FamilyOf(byId, x.id) != "" ==>
          FamilyOf(byId, x.id) in g.best && Ahead(g.best[FamilyOf(byId, x.id)], x))
    && (forall f :: f in g.best ==>
          f != "" && g.best[f] in recs && g.best[f].gate == ForYou && FamilyOf(byId, g.best[f].id) == f)
  }

  lemma AbsorbTracks(g: Groups, recs: seq<Recommendation>, item: Recommendation, byId: map<string, Candidate>)
    requires Tracks(g, recs, byId)
    ensures Tracks(Absorb(g, item, byId), recs + [item], byId)
  {
    AheadPreorder();
    var f := FamilyOf(byId, item.id);
    assert Ahead(item, item);
    if item.gate == ForYou && f in g.best {
      var b := g.best[f];
      assert if Beats(item, b) then Ahead(item, b) else Ahead(b, item) by {
        Strings.LeTotal(item.id, b.id);
      }
    }
  }

  lemma {:induction false} GroupingTracks(recs: seq<Recommendation>, byId: map<string, Candidate>)
    ensures Tracks(Grouping(recs, byId), recs, byId)
  {
    if recs != [] {
      var n := |recs| - 1;
      GroupingTracks(recs[..n], byId);
      AbsorbTracks(Grouping(recs[..n], byId), recs[..n], recs[n], byId);
      assert recs[..n] + [recs[n]] == recs;
    }
  }

  lemma {:induction false} UngroupedUnique(recs: seq<Recommendation>, byId: map<string, Candidate>)
    requires UniqueIds(recs)
    ensures UniqueIds(Grouping(recs, byId).ungrouped)
  {
    if recs != [] {
      var n := |recs| - 1;
      var g := Grouping(recs[..n], byId);
      UngroupedUnique(recs[..n], byId);
      GroupingTracks(recs[..n], byId);
      forall i | 0 <= i < |g.ungrouped| ensures g.ungrouped[i].id != recs[n].id {
        assert g.ungrouped[i] in recs[..n];
      }
    }
  }

  /** Ids in different families differ. */
  lemma ConcatUnique(a: seq<Recommendation>, b: seq<Recommendation>, byId: map<string, Candidate>)
    requires UniqueIds(a) && UniqueIds(b)
    requires forall i :: 0 <= i < |a| ==> FamilyOf(byId, a[i].id) == ""
    requires forall i :: 0 <= i < |b| ==> FamilyOf(byId, b[i].id) != ""
    ensures UniqueIds(a + b)
  {
  }

  lemma ValuesUnique(g: Groups, recs: seq<Recommendation>, byId: map<string, Candidate>)
    requires WellOrdered(g) && Tracks(g, recs, byId)
    ensures UniqueIds(Values(g.order, g.best))
    ensures forall i :: 0 <= i < |g.order| ==> FamilyOf(byId, Values(g.order, g.best)[i].id) == g.order[i] != ""
  {
    forall i | 0 <= i < |g.order| ensures FamilyOf(byId, Values(g.order, g.best)[i].id) == g.order[i] != "" {
      assert g.order[i] in g.best;
    }
  }

  lemma ItemsUnique(recs: seq<Recommendation>, byId: map<string, Candidate>)
    requires UniqueIds(recs)
    ensures WellOrdered(Grouping(recs, byId)) && UniqueIds(Items(Grouping(recs, byId)))
  {
    hide Grouping;
    var g := Grouping(recs, byId);
    GroupingWellOrdered(recs, byId);
    GroupingTracks(recs, byId);
    UngroupedUnique(recs, byId);
    ValuesUnique(g, recs, byId);
    assert forall i :: 0 <= i < |g.ungrouped| ==> g.ungrouped[i] in g.ungrouped;
    ConcatUnique(g.ungrouped, Values(g.order, g.best), byId);
  }

  /** The inventory is every ungrouped for_you item and one item per family, its best. */
  lemma ItemsAreRepresentatives(recs: seq<Recommendation>, byId: map<string, Candidate>)
    requires UniqueIds(recs)
    ensures WellOrdered(Grouping(recs, byId))
    ensures forall x :: x in Items(Grouping(recs, byId)) <==> Represents(recs, byId, x)
  {
    var g := Grouping(recs, byId);
    GroupingWellOrdered(recs, byId);
    GroupingTracks(recs, byId);
    AheadSeparates(recs);
    var values := Values(g.order, g.best);
    forall x | x in Items(g) ensures Represents(recs, byId, x) {
      if x !in g.ungrouped {
        var i :| 0 <= i < |values| && values[i] == x;
        assert g.order[i] in g.best && x == g.best[g.order[i]];
      }
    }
    forall x | Represents(recs, byId, x) ensures x in Items(g) {
      var f := FamilyOf(byId, x.id);
      if f != "" {
        assert g.best[f] == x;
        var i :| 0 <= i < |g.order| && g.order[i] == f;
        assert values[i] == x;
      }
    }
  }

  /** Two families never share a representative's family key. */
  lemma OnePerFamily(recs: seq<Recommendation>, byId: map<string, Candidate>, x: Recommendation, y: Recommendation)
    requires UniqueIds(recs) && Represents(recs, byId, x) && Represents(recs, byId, y)
    requires FamilyOf(byId, x.id) == FamilyOf(byId, y.id) != ""
    ensures x == y
  {
    AheadSeparates(recs);
  }

  // ----- ranking and caps -----

  function Ranked(recs: seq<Recommendation>, byId: map<string, Candidate>): seq<Recommendation> {
    GroupingWellOrdered(recs, byId);
    Sorting.Sort(Items(Grouping(recs, byId)), Ahead)
  }

  lemma {:induction false} SameContents(a: seq<Recommendation>, b: seq<Recommendation>)
    requires UniqueIds(a) && UniqueIds(b) && forall x :: x in a <==> x in b
    ensures multiset(a) == multiset(b)
  {
    if a == [] {
      Sorting.HeadIsMember(b);
    } else {
      assert a[0] in b;
      var i :| 0 <= i < |b| && b[i] == a[0];
      var b' := Sorting.RemoveAt(b, i);
      Sorting.RemoveAtContents(b, i);
      RemoveAtMembers(b, i);
      assert forall x :: x in a[1..] <==> x in a && x != a[0] by {
        assert forall x :: x in a <==> x == a[0] || x in a[1..];
      }
      SameContents(a[1..], b');
      assert a == [a[0]] + a[1..];
    }
  }

  lemma RemoveAtMembers(b: seq<Recommendation>, i: nat)
    requires i < |b| && UniqueIds(b)
    ensures UniqueIds(Sorting.RemoveAt(b, i))
    ensures forall x :: x in Sorting.RemoveAt(b, i) <==> x in b && x != b[i]
  {
    var r := Sorting.RemoveAt(b, i);
    assert forall j :: 0 <= j < |r| ==> r[j] == if j < i then b[j] else b[j + 1];
    forall x | x in b && x != b[i] ensures x in r {
      var j :| 0 <= j < |b| && b[j] == x;
      assert r[if j < i then j else j - 1] == x;
    }
  }

  /** The ranked inventory does not depend on the order of either input. */
  lemma RankedPermutation(a: seq<Recommendation>, b: seq<Recommendation>, byId: map<string, Candidate>)
    requires UniqueIds(a) && multiset(a) == multiset(b)
    ensures Ranked(a, byId) == Ranked(b, byId)
  {
    UniquePermutation(a, b);
    Sorting.SameMembers(a, b);
    ItemsUnique(a, byId);
    ItemsUnique(b, byId);
    ItemsAreRepresentatives(a, byId);
    ItemsAreRepresentatives(b, byId);
    assert forall x :: Represents(a, byId, x) <==> Represents(b, byId, x);
    var p, q := Items(Grouping(a, byId)), Items(Grouping(b, byId));
    SameContents(p, q);
    AheadPreorder();
    AheadSeparates(p);
    Sorting.SortPermutation(p, q, Ahead);
  }

  function IdOf(r: Recommendation): string { r.id }

  lemma UniquePermutation(a: seq<Recommendation>, b: seq<Recommendation>)
    requires UniqueIds(a) && multiset(a) == multiset(b)
    ensures UniqueIds(b)
  {
    Sorting.PermutationDistinct(a, b, IdOf);
    assert forall i, j :: 0 <= i < j < |b| ==> IdOf(b[i]) != IdOf(b[j]);
  }

  /** The accumulators of the second loop. */
  datatype Placement = Placement(
    selected: seq<Recommendation>, deferred: seq<Recommendation>, counts: map<string, nat>)

  /** The cap on one employer when filling position `rank`. */
  function Cap(rank: nat): Option<nat> {
    if rank <= 20 then Some(4) else if rank <= 50 then Some(6) else None
  }

  function CountIn(counts: map<string, nat>, employer: string): nat {
    if employer in counts then counts[employer] else 0
  }

  function Place(p: Placement, item: Recommendation, byId: map<string, Candidate>): Placement {
    var employer := EmployerOf(byId, item.id);
    var cap := Cap(|p.selected| + 1);
    if employer != "" && cap.Some? && CountIn(p.counts, employer) >= cap.value then
      p.(deferred := p.deferred + [item])
    else
      p.(selected := p.selected + [item],
         counts := if employer == "" then p.counts else p.counts[employer := CountIn(p.counts, employer) + 1])
  }

  function Placing(ranked: seq<Recommendation>, byId: map<string, Candidate>): Placement {
    if ranked == [] then Placement([], [], map[])
    else Place(Placing(ranked[..|ranked| - 1], byId), ranked[|ranked| - 1], byId)
  }

  function Ids(recs: seq<Recommendation>): (r: seq<string>)
    ensures |r| == |recs| && forall i :: 0 <= i < |r| ==> r[i] == recs[i].id
  {
    seq(|recs|, (i: int) requires 0 <= i < |recs| => recs[i].id)
  }

  /** The feed without a limit: the capped part, then everything a cap deferred. */
  function Feed(recs: seq<Recommendation>, candidates: seq<Candidate>): seq<Recommendation> {
    var p := Placing(Ranked(recs, ById(candidates)), ById(candidates));
    p.selected + p.deferred
  }

  lemma IdsOfPrefix(placed: seq<Recommendation>, deferred: seq<Recommendation>, i: nat)
    requires i <= |deferred|
    ensures deferred[..|deferred|] == deferred
    ensures forall k :: 0 <= k <= |placed| + i ==> Ids((placed + deferred[..i])[..k]) == Ids(placed + deferred)[..k]
  {
  }

  /** matching/recommendation_engine.py:220-272. Whatever the limit, the result is that many
      leading ids of the unlimited feed. */
  method ComposeForYou(recs: seq<Recommendation>, candidates: seq<Candidate>, limit: Option<int>)
      returns (ids: seq<string>)
    ensures limit.None? ==> ids == Ids(Feed(recs, candidates))
    ensures limit.Some? && limit.value <= 0 ==> ids == []
    ensures limit.Some? && limit.value > 0 ==> |ids| <= limit.value && ids <= Ids(Feed(recs, candidates))
    ensures limit.Some? && |ids| < limit.value ==> ids == Ids(Feed(recs, candidates))
  {
    hide Placing, Ranked;
    var byId: map<string, Candidate> := map[];
    for i := 0 to |candidates|
      invariant byId == ById(candidates[..i])
    {
      byId := byId[candidates[i].id := candidates[i]];
      assert candidates[..i + 1][..i] == candidates[..i];
    }
    assert candidates[..|candidates|] == candidates;
    var ranked := RankInventory(recs, byId);
    var selected, deferred := PlaceByCaps(ranked, byId);
    ghost var placed := selected;
    var i := 0;
    while i < |deferred| && !(limit.Some? && |selected| >= limit.value)
      invariant 0 <= i <= |deferred|
      invariant selected == placed + deferred[..i]
    {
      selected := selected + [deferred[i]];
      i := i + 1;
    }
    if limit.Some? {
      var k := if limit.value < 0 then 0 else limit.value;
      selected := if k < |selected| then selected[..k] else selected;
    }
    ids := Ids(selected);
    IdsOfPrefix(placed, deferred, i);
  }

  /** matching/recommendation_engine.py:232-250. */
  method RankInventory(recs: seq<Recommendation>, byId: map<string, Candidate>) returns (ranked: seq<Recommendation>)
    ensures ranked == Ranked(recs, byId)
  {
    var ungrouped: seq<Recommendation>, order: seq<string>, best: map<string, Recommendation> := [], [], map[];
    for i := 0 to |recs|
      invariant Groups(ungrouped, order, best) == Grouping(recs[..i], byId)
    {
      var item := recs[i];
      assert recs[..i + 1][..i] == recs[..i];
      if item.gate != ForYou { continue; }
      var family := FamilyOf(byId, item.id);
      if family == "" {
        ungrouped := ungrouped + [item];
        continue;
      }
      if family !in best {
        order := order + [family];
        best := best[family := item];
      } else if Above(item.key, best[family].key)
             || (item.key == best[family].key && Strings.Lt(item.id, best[family].id)) {
        best := best[family := item];
      }
    }
    assert recs[..|recs|] == recs;
    GroupingWellOrdered(recs, byId);
    ranked := Sorting.Sort(ungrouped + Values(order, best), Ahead);
  }

  /** matching/recommendation_engine.py:251-264. */
  method PlaceByCaps(ranked: seq<Recommendation>, byId: map<string, Candidate>)
      returns (selected: seq<Recommendation>, deferred: seq<Recommendation>)
    ensures selected == Placing(ranked, byId).selected && deferred == Placing(ranked, byId).deferred
  {
    selected, deferred := [], [];
    var counts: map<string, nat> := map[];
    for i := 0 to |ranked|
      invariant Placement(selected, deferred, counts) == Placing(ranked[..i], byId)
    {
      var item := ranked[i];
      assert ranked[..i + 1][..i] == ranked[..i];
      var employer := EmployerOf(byId, item.id);
      var cap := Cap(|selected| + 1);
      if employer != "" && cap.Some? && CountIn(counts, employer) >= cap.value {
        deferred := deferred + [item];
        continue;
      }
      selected := selected + [item];
      if employer != "" {
        counts := counts[employer := CountIn(counts, employer) + 1];
      }
    }
    assert ranked[..|ranked|] == ranked;
  }

  /** Neither the order of the recommendations nor that of the candidates matters. */
  lemma FeedPermutation(a: seq<Recommendation>, b: seq<Recommendation>, c: seq<Candidate>, d: seq<Candidate>)
    requires UniqueIds(a) && multiset(a) == multiset(b)
    requires Sorting.DistinctBy(c, CandidateId) && multiset(c) == multiset(d)
    ensures Feed(a, c) == Feed(b, d)
  {
    ByIdPermutation(c, d);
    RankedPermutation(a, b, ById(c));
  }

  lemma ContentsSnoc(s: seq<Recommendation>, x: Recommendation)
    ensures multiset(s + [x]) == multiset(s) + multiset{x}
  {
  }

  /** Each turn puts its item in exactly one of the two lists. */
  lemma PlaceAdds(p: Placement, x: Recommendation, byId: map<string, Candidate>)
    ensures var q := Place(p, x, byId);
      (q.selected == p.selected + [x] && q.deferred == p.deferred)
      || (q.selected == p.selected && q.deferred == p.deferred + [x])
  {
  }

  lemma Joins<T>(a: multiset<T>, b: multiset<T>, c: multiset<T>)
    ensures a + c + b == a + b + c && a + (b + c) == a + b + c
  {
  }

  lemma {:induction false} PlacingPartitions(ranked: seq<Recommendation>, byId: map<string, Candidate>)
    ensures multiset(Placing(ranked, byId).selected) + multiset(Placing(ranked, byId).deferred) == multiset(ranked)
  {
    hide Place;
    if ranked != [] {
      var n := |ranked| - 1;
      var p, x := Placing(ranked[..n], byId), ranked[n];
      PlacingPartitions(ranked[..n], byId);
      PlaceAdds(p, x, byId);
      ContentsSnoc(p.selected, x);
      ContentsSnoc(p.deferred, x);
      ContentsSnoc(ranked[..n], x);
      Joins(multiset(p.selected), multiset(p.deferred), multiset{x});
      assert ranked == ranked[..n] + [x];
    }
  }

  /** The unlimited feed lists every representative exactly once and nothing else. */
  lemma FeedIsInventory(recs: seq<Recommendation>, candidates: seq<Candidate>)
    requires UniqueIds(recs)
    ensures UniqueIds(Feed(recs, candidates))
    ensures forall x :: x in Feed(recs, candidates) <==> Represents(recs, ById(candidates), x)
  {
    var byId := ById(candidates);
    var ranked := Ranked(recs, byId);
    PlacingPartitions(ranked, byId);
    ItemsUnique(recs, byId);
    ItemsAreRepresentatives(recs, byId);
    var items := Items(Grouping(recs, byId));
    var feed := Feed(recs, candidates);
    assert multiset(feed) == multiset(items);
    UniquePermutation(items, feed);
    Sorting.SameMembers(items, feed);
  }

  // ----- what the caps guarantee -----

  function EmployerCount(recs: seq<Recommendation>, employer: string, byId: map<string, Candidate>): nat {
    if recs == [] then 0
    else EmployerCount(recs[..|recs| - 1], employer, byId)
         + if EmployerOf(byId, recs[|recs| - 1].id) == employer then 1 else 0
  }

  lemma EmployerCountSnoc(recs: seq<Recommendation>, x: Recommendation, employer: string, byId: map<string, Candidate>)
    ensures EmployerCount(recs + [x], employer, byId) ==
      EmployerCount(recs, employer, byId) + if EmployerOf(byId, x.id) == employer then 1 else 0
  {
    assert (recs + [x])[..|recs|] == recs;
  }

  lemma {:induction false} EmployerCountMonotone(recs: seq<Recommendation>, n: nat, employer: string,
                                                 byId: map<string, Candidate>)
    requires n <= |recs|
    ensures EmployerCount(recs[..n], employer, byId) <= EmployerCount(recs, employer, byId)
  {
    if n < |recs| {
      EmployerCountMonotone(recs[..|recs| - 1], n, employer, byId);
      assert recs[..|recs| - 1][..n] == recs[..n];
    } else {
      assert recs[..n] == recs;
    }
  }

  /** No employer holds more than `cap` of the first `places` places. */
  ghost predicate Within(selected: seq<Recommendation>, places: nat, cap: nat, byId: map<string, Candidate>) {
    forall e, n :: e != "" && 0 <= n <= |selected| && n <= places ==> EmployerCount(selected[..n], e, byId) <= cap
  }

  lemma WithinSnoc(selected: seq<Recommendation>, x: Recommendation, places: nat, cap: nat,
                   byId: map<string, Candidate>)
    requires Within(selected, places, cap, byId)
    requires |selected| < places && EmployerOf(byId, x.id) != "" ==>
      EmployerCount(selected, EmployerOf(byId, x.id), byId) < cap
    ensures Within(selected + [x], places, cap, byId)
  {
    var more, k := selected + [x], |selected|;
    assert selected[..k] == selected;
    forall e, n | e != "" && 0 <= n <= |more| && n <= places ensures EmployerCount(more[..n], e, byId) <= cap {
      if n <= k {
        assert more[..n] == selected[..n];
      } else {
        assert more[..n] == more;
        EmployerCountSnoc(selected, x, e, byId);
        assert EmployerCount(selected[..k], e, byId) <= cap;
      }
    }
  }

  /** The counts dict counts the selected part, the selected part keeps both caps, and an item
      is deferred only once its employer holds 4 places. */
  ghost predicate KeepsCaps(p: Placement, byId: map<string, Candidate>) {
    && (forall e :: e != "" ==> CountIn(p.counts, e) == EmployerCount(p.selected, e, byId))
    && Within(p.selected, 20, 4, byId) && Within(p.selected, 50, 6, byId)
    && (forall d :: d in p.deferred ==> EmployerCount(p.selected, EmployerOf(byId, d.id), byId) >= 4)
  }

  lemma PlaceKeepsCaps(p: Placement, item: Recommendation, byId: map<string, Candidate>)
    requires KeepsCaps(p, byId)
    ensures KeepsCaps(Place(p, item, byId), byId)
  {
    hide EmployerCount, Within;
    var q := Place(p, item, byId);
    if q.selected != p.selected {
      forall e ensures EmployerCount(q.selected, e, byId) ==
        EmployerCount(p.selected, e, byId) + if EmployerOf(byId, item.id) == e then 1 else 0
      {
        EmployerCountSnoc(p.selected, item, e, byId);
      }
      WithinSnoc(p.selected, item, 20, 4, byId);
      WithinSnoc(p.selected, item, 50, 6, byId);
    }
  }

  /** In the capped part no employer holds more than 4 of the first 20 places or 6 of the first
      50, and an item is deferred only once its employer holds 4. */
  lemma {:induction false} CapsHold(ranked: seq<Recommendation>, byId: map<string, Candidate>)
    ensures KeepsCaps(Placing(ranked, byId), byId)
  {
    if ranked != [] {
      var n := |ranked| - 1;
      CapsHold(ranked[..n], byId);
      PlaceKeepsCaps(Placing(ranked[..n], byId), ranked[n], byId);
    }
  }

  lemma {:induction false} PlacingSorted(ranked: seq<Recommendation>, byId: map<string, Candidate>)
    requires Sorting.Sorted(ranked, Ahead)
    ensures Sorting.Sorted(Placing(ranked, byId).selected, Ahead)
    ensures Sorting.Sorted(Placing(ranked, byId).deferred, Ahead)
    ensures forall x :: x in Placing(ranked, byId).selected || x in Placing(ranked, byId).deferred ==> x in ranked
  {
    hide Place;
    if ranked != [] {
      var n := |ranked| - 1;
      var init, x := ranked[..n], ranked[n];
      PlacingSorted(init, byId);
      PlaceAdds(Placing(init, byId), x, byId);
      forall y | y in init ensures Ahead(y, x) {
        var i :| 0 <= i < n && init[i] == y;
        assert ranked[i] == y;
      }
    }
  }

  /** In rank order `d` was due right after the first `n` selected items, and there its employer
      had used up its share: 4 of the first 20 places, 6 of the first 50. */
  ghost predicate HeldBack(selected: seq<Recommendation>, d: Recommendation, n: int, byId: map<string, Candidate>) {
    && 0 <= n <= |selected| && n < 50 && EmployerOf(byId, d.id) != ""
    && EmployerCount(selected[..n], EmployerOf(byId, d.id), byId) >= (if n < 20 then 4 else 6)
    && (forall i :: 0 <= i < n ==> Ahead(selected[i], d))
    && (forall i :: n <= i < |selected| ==> Ahead(d, selected[i]))
  }

  lemma HeldBackSnoc(selected: seq<Recommendation>, x: Recommendation, d: Recommendation, n: int,
                     byId: map<string, Candidate>)
    requires HeldBack(selected, d, n, byId) && Ahead(d, x)
    ensures HeldBack(selected + [x], d, n, byId)
  {
    assert (selected + [x])[..n] == selected[..n];
  }

  lemma HeldBackNow(p: Placement, x: Recommendation, byId: map<string, Candidate>)
    requires KeepsCaps(p, byId) && Place(p, x, byId).selected == p.selected
    requires forall i :: 0 <= i < |p.selected| ==> Ahead(p.selected[i], x)
    ensures HeldBack(p.selected, x, |p.selected|, byId)
  {
    hide EmployerCount, Within, Ahead;
    assert p.selected[..|p.selected|] == p.selected;
    assert p.selected + [x] != p.selected by {
      assert |p.selected + [x]| == |p.selected| + 1;
    }
  }

  /** Every deferred item was held back by a used-up share, and by nothing else. */
  lemma {:induction false} AllHeldBack(ranked: seq<Recommendation>, byId: map<string, Candidate>)
    requires Sorting.Sorted(ranked, Ahead)
    ensures var p := Placing(ranked, byId);
      forall d :: d in p.deferred ==> exists n :: HeldBack(p.selected, d, n, byId)
  {
    if ranked != [] {
      hide Place, HeldBack, Ahead, KeepsCaps;
      var last := |ranked| - 1;
      var init, x := ranked[..last], ranked[last];
      var p := Placing(init, byId);
      var q := Place(p, x, byId);
      AllHeldBack(init, byId);
      PlacingSorted(init, byId);
      CapsHold(init, byId);
      PlaceAdds(p, x, byId);
      forall y | y in init ensures Ahead(y, x) {
        var i :| 0 <= i < last && init[i] == y;
        assert ranked[i] == y;
      }
      forall d | d in q.deferred ensures exists n :: HeldBack(q.selected, d, n, byId) {
        if d in p.deferred {
          var n :| HeldBack(p.selected, d, n, byId);
          if q.selected != p.selected {
            HeldBackSnoc(p.selected, x, d, n, byId);
          }
          assert HeldBack(q.selected, d, n, byId);
        } else {
          assert forall i :: 0 <= i < |p.selected| ==> p.selected[i] in p.selected;
          HeldBackNow(p, x, byId);
        }
      }
    }
  }

  /** The unlimited feed is a capped part followed by deferred items, each best-first: the caps
      hold throughout the capped part, and every item after it was due at a place where its
      employer's share was used up - so a cap is broken only once everything else is placed. */
  lemma FeedStructure(recs: seq<Recommendation>, candidates: seq<Candidate>) returns (k: nat)
    ensures k <= |Feed(recs, candidates)| && Structured(Feed(recs, candidates), k, ById(candidates))
  {
    var byId := ById(candidates);
    var ranked := Ranked(recs, byId);
    GroupingWellOrdered(recs, byId);
    AheadPreorder();
    Sorting.SortSorted(Items(Grouping(recs, byId)), Ahead);
    PlacingSorted(ranked, byId);
    CapsHold(ranked, byId);
    AllHeldBack(ranked, byId);
    var p, feed := Placing(ranked, byId), Feed(recs, candidates);
    k := |p.selected|;
    assert feed[..k] == p.selected && feed[k..] == p.deferred;
  }

  ghost predicate Structured(feed: seq<Recommendation>, k: int, byId: map<string, Candidate>)
    requires 0 <= k <= |feed|
  {
    && Within(feed[..k], 20, 4, byId) && Within(feed[..k], 50, 6, byId)
    && Sorting.Sorted(feed[..k], Ahead) && Sorting.Sorted(feed[k..], Ahead)
    && forall d :: d in feed[k..] ==> exists n :: HeldBack(feed[..k], d, n, byId)
  }

  // ----- in the terms of the inputs -----

  /** Nothing in a later place outranks something in an earlier one. */
  ghost predicate BestFirst(part: seq<Recommendation>) {
    forall i, j :: 0 <= i < j < |part| ==>
      !Outranks(part[j].key, part[i].key) && (part[i].key == part[j].key ==> Strings.Le(part[i].id, part[j].id))
  }

  lemma SortedBestFirst(part: seq<Recommendation>)
    requires Sorting.Sorted(part, Ahead)
    ensures BestFirst(part)
  {
    forall i, j | 0 <= i < j < |part|
      ensures !Outranks(part[j].key, part[i].key) && (part[i].key == part[j].key ==> Strings.Le(part[i].id, part[j].id))
    {
      assert Ahead(part[i], part[j]);
      AboveIff(part[j].key, part[i].key);
    }
  }

  /** The feed in two parts, each best first by tier, then fit, then the other components, then id. */
  lemma FeedBestFirst(recs: seq<Recommendation>, candidates: seq<Candidate>) returns (k: nat)
    ensures k <= |Feed(recs, candidates)| && Structured(Feed(recs, candidates), k, ById(candidates))
    ensures BestFirst(Feed(recs, candidates)[..k]) && BestFirst(Feed(recs, candidates)[k..])
  {
    hide Feed;
    k := FeedStructure(recs, candidates);
    SortedBestFirst(Feed(recs, candidates)[..k]);
    SortedBestFirst(Feed(recs, candidates)[k..]);
  }

  /** No member of a family outranks the one shown, and none with an equal key has a smaller id. */
  lemma RepresentativeIsBest(recs: seq<Recommendation>, byId: map<string, Candidate>, x: Recommendation,
                             y: Recommendation)
    requires Represents(recs, byId, x) && y in recs && y.gate == ForYou
    requires FamilyOf(byId, x.id) == FamilyOf(byId, y.id) != ""
    ensures !Outranks(y.key, x.key) && (x.key == y.key ==> Strings.Le(x.id, y.id))
  {
    AboveIff(y.key, x.key);
    AboveIff(x.key, y.key);
  }

  /** Families and employers are those of the candidate with the item's id, if there is one. */
  lemma CandidateFields(candidates: seq<Candidate>, id: string)
    requires Sorting.DistinctBy(candidates, CandidateId)
    ensures forall c :: c in candidates && c.id == id ==>
      FamilyOf(ById(candidates), id) == c.family && EmployerOf(ById(candidates), id) == c.employer
    ensures (forall c :: c in candidates ==> c.id != id) ==>
      FamilyOf(ById(candidates), id) == "" && EmployerOf(ById(candidates), id) == ""
  {
    ByIdLookup(candidates);
  }
}
