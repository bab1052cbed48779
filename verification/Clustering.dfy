/** opportunity/clustering.py:135-297: postings grouped into families by employer and title. */
module Clustering {
  import opened Wrappers
  import Strings
  import Sorting
  import Grouping

  /** One posting with its evaluation, if it has one. */
  datatype Member = Member(
    id: string, organization: string, title: string, location: string, fit: Option<real>, decision: Option<string>)

  /** The employer and title normalizers and the digest. */
  datatype Keying = Keying(employer: string -> string, title: string -> string, digest: string -> string)

  datatype Family = Family(
    key: string, employer: string, title: string, memberIds: seq<string>, bestId: string, bestFit: Option<real>,
    bestDecision: Option<string>, locations: seq<string>, count: nat, decisionsDiffer: bool)

  function Payload(k: Keying, organization: string, title: string): string {
    k.employer(organization) + "|" + k.title(title)
  }

  function FamilyKey(k: Keying): Member -> string {
    (m: Member) => k.digest(Payload(k, m.organization, m.title))
  }

  /** Employer keys are alphanumeric, and digests do not collide. */
  ghost predicate Ideal(k: Keying) {
    (forall s :: '|' !in k.employer(s)) && (forall x, y :: k.digest(x) == k.digest(y) ==> x == y)
  }

  function IdOf(m: Member): string { m.id }
  function OrganizationOf(m: Member): string { m.organization }

  ghost predicate DistinctIds(members: seq<Member>) {
    Sorting.DistinctBy(members, IdOf)
  }

  // ----- keys -----

  /** Two postings share a family exactly if their normalized employers and titles agree. */
  lemma SameFamilyIff(k: Keying, a: Member, b: Member)
    requires Ideal(k)
    ensures FamilyKey(k)(a) == FamilyKey(k)(b) <==>
      k.employer(a.organization) == k.employer(b.organization) && k.title(a.title) == k.title(b.title)
  {
    var p, q := Payload(k, a.organization, a.title), Payload(k, b.organization, b.title);
    assert FamilyKey(k)(a) == k.digest(p) && FamilyKey(k)(b) == k.digest(q);
    if FamilyKey(k)(a) == FamilyKey(k)(b) {
      assert p == q;
      Strings.SplitAt('|', k.employer(a.organization), k.title(a.title), k.employer(b.organization), k.title(b.title));
    }
  }

  // ----- orders -----

  predicate IdLe(a: Member, b: Member) { Strings.Le(a.id, b.id) }

  /** opportunity/clustering.py:214-217: scored before unscored, higher score first, then id. */
  predicate BetterOrSame(a: Member, b: Member) {
    if a.fit.Some? != b.fit.Some? then a.fit.Some?
    else if a.fit.Some? && a.fit.value != b.fit.value then a.fit.value > b.fit.value
    else Strings.Le(a.id, b.id)
  }

  lemma Preorders()
    ensures Sorting.Preorder(Strings.Le) && Sorting.Preorder(IdLe) && Sorting.Preorder(BetterOrSame)
  {
    hide Strings.Le;
    forall a, b ensures Strings.Le(a, b) || Strings.Le(b, a) {
      Strings.LeTotal(a, b);
    }
    forall a, b, c | Strings.Le(a, b) && Strings.Le(b, c) ensures Strings.Le(a, c) {
      Strings.LeTransitive(a, b, c);
    }
  }

  lemma IdsSeparate(s: seq<Member>)
    requires DistinctIds(s)
    ensures Sorting.Separates(s, IdLe)
  {
    forall x, y | x in s && y in s && IdLe(x, y) && IdLe(y, x) ensures x == y {
      Strings.LeAntisymmetric(x.id, y.id);
      SameIdSame(s, x, y);
    }
  }

  lemma SameIdSame(s: seq<Member>, x: Member, y: Member)
    requires DistinctIds(s) && x in s && y in s && x.id == y.id
    ensures x == y
  {
    var i :| 0 <= i < |s| && s[i] == x;
    var j :| 0 <= j < |s| && s[j] == y;
    assert i < j ==> IdOf(s[i]) != IdOf(s[j]);
    assert j < i ==> IdOf(s[j]) != IdOf(s[i]);
  }

  // ----- one family -----

  function SelectBest(group: seq<Member>): (best: Member)
    requires group != []
    ensures best in group
  {
    var s := Sorting.Sort(group, BetterOrSame);
    Sorting.SortMembers(group, BetterOrSame);
    assert s[0] in s;
    s[0]
  }

  /** No member is better than the best one. */
  lemma BestIsBest(group: seq<Member>, m: Member)
    requires m in group
    ensures BetterOrSame(SelectBest(group), m)
  {
    hide BetterOrSame;
    var s := Sorting.Sort(group, BetterOrSame);
    Preorders();
    Sorting.SortSorted(group, BetterOrSame);
    Sorting.SortMembers(group, BetterOrSame);
    var i :| 0 <= i < |s| && s[i] == m;
    assert Sorting.Preorder(BetterOrSame) ==> BetterOrSame(m, m);
  }

  function Ids(group: seq<Member>): (r: seq<string>)
    ensures |r| == |group| && forall i :: 0 <= i < |r| ==> r[i] == group[i].id
  {
    seq(|group|, (i: int) requires 0 <= i < |group| => group[i].id)
  }

  /** The set of non-empty locations, as a list. */
  function Places(group: seq<Member>): (r: seq<string>)
    ensures Grouping.Distinct(r)
    ensures forall l :: l in r <==> l != "" && exists m :: m in group && m.location == l
  {
    if group == [] then []
    else
      var n := |group| - 1;
      var rest, l := Places(group[..n]), group[n].location;
      assert group == group[..n] + [group[n]];
      if l == "" || l in rest then rest else rest + [l]
  }

  function Decisions(group: seq<Member>): set<string> {
    set m | m in group && m.decision.Some? :: m.decision.value
  }

  /** One turn of the second loop of `cluster_members`; `group` is sorted by id. */
  function FamilyOf(k: Keying, key: string, group: seq<Member>): Family
    requires group != []
  {
    var best := SelectBest(group);
    Family(key, group[0].organization, k.title(group[0].title), Ids(group), best.id, best.fit, best.decision,
           Sorting.Sort(Places(group), Strings.Le), |group|, |Decisions(group)| > 1)
  }

  /** The family filed under `key`. */
  function FamilyAt(k: Keying, members: seq<Member>, key: string): Family
    requires Grouping.GroupOf(members, FamilyKey(k), key) != []
  {
    FamilyOf(k, key, Sorting.Sort(Grouping.GroupOf(members, FamilyKey(k), key), IdLe))
  }

  ghost predicate Ascending(s: seq<string>) {
    forall i, j :: 0 <= i < j < |s| ==> Strings.Lt(s[i], s[j])
  }

  lemma SortedDistinctAscends(s: seq<string>)
    requires Grouping.Distinct(s)
    ensures Ascending(Sorting.Sort(s, Strings.Le))
    ensures forall x :: x in Sorting.Sort(s, Strings.Le) <==> x in s
  {
    hide Strings.Le, Sorting.Sort, Sorting.Preorder;
    Preorders();
    var r := Sorting.Sort(s, Strings.Le);
    Sorting.SortSorted(s, Strings.Le);
    Sorting.SortMembers(s, Strings.Le);
    Sorting.PermutationDistinct(s, r, Self);
    forall i, j | 0 <= i < j < |r| ensures Strings.Lt(r[i], r[j]) {
      assert Self(r[i]) != Self(r[j]);
    }
  }

  function Self(s: string): string { s }

  lemma ManyIff(s: set<string>)
    ensures |s| > 1 <==> exists x, y :: x in s && y in s && x != y
  {
    if |s| > 1 {
      var x :| x in s;
      var rest := s - {x};
      assert |rest| > 0;
      var y :| y in rest;
      assert y in s && x != y;
    }
    if x, y :| x in s && y in s && x != y {
      assert {x, y} <= s;
      Cardinality({x, y}, s);
    }
  }

  lemma Cardinality(a: set<string>, b: set<string>)
    requires a <= b
    ensures |a| <= |b|
  {
    assert b == a + (b - a);
  }

  /** `m` is no reason not to pick `best`: a scored member is preferred to an unscored one, then a
      higher score, then a smaller id. */
  predicate Stands(best: Member, m: Member) {
    && (m.fit.Some? ==> best.fit.Some? && best.fit.value >= m.fit.value)
    && (m.fit == best.fit ==> Strings.Le(best.id, m.id))
  }

  lemma BetterStands(best: Member, m: Member)
    requires BetterOrSame(best, m)
    ensures Stands(best, m)
  {
  }

  /** What a family says of its group: exactly the ids, sorted; the best member; the distinct
      non-empty locations, sorted; and whether two decisions disagree. */
  ghost predicate Describes(f: Family, group: seq<Member>) {
    && f.count == |group| == |f.memberIds|
    && (forall i :: 0 <= i < |group| ==> f.memberIds[i] == group[i].id)
    && (exists best :: best in group && f.bestId == best.id && f.bestFit == best.fit && f.bestDecision == best.decision
          && forall m :: m in group ==> Stands(best, m))
    && Ascending(f.locations)
    && (forall l :: l in f.locations <==> l != "" && exists m :: m in group && m.location == l)
    && (f.decisionsDiffer <==>
          exists a, b :: a in group && b in group && a.decision.Some? && b.decision.Some? && a.decision != b.decision)
  }

  lemma DecisionsDiffer(group: seq<Member>)
    ensures |Decisions(group)| > 1 <==>
      exists a, b :: a in group && b in group && a.decision.Some? && b.decision.Some? && a.decision != b.decision
  {
    ManyIff(Decisions(group));
    if a, b :| a in group && b in group && a.decision.Some? && b.decision.Some? && a.decision != b.decision {
      assert a.decision.value in Decisions(group) && b.decision.value in Decisions(group);
    }
    if x, y :| x in Decisions(group) && y in Decisions(group) && x != y {
      var a :| a in group && a.decision.Some? && a.decision.value == x;
      var b :| b in group && b.decision.Some? && b.decision.value == y;
    }
  }

  lemma FamilyDescribes(k: Keying, key: string, group: seq<Member>)
    requires group != []
    ensures Describes(FamilyOf(k, key, group), group)
  {
    hide SelectBest, Places, Decisions, BetterOrSame, Strings.Le, Strings.Lt, Sorting.Sort, Ascending;
    SortedDistinctAscends(Places(group));
    DecisionsDiffer(group);
    forall m | m in group ensures Stands(SelectBest(group), m) {
      BestIsBest(group, m);
      BetterStands(SelectBest(group), m);
    }
  }

  // ----- the whole clustering -----

  function SortedKeys(k: Keying, members: seq<Member>): seq<string> {
    Sorting.Sort(Grouping.FirstKeys(members, FamilyKey(k)), Strings.Le)
  }

  lemma SortedKeysMeaning(k: Keying, members: seq<Member>)
    ensures Ascending(SortedKeys(k, members)) && Grouping.Distinct(SortedKeys(k, members))
    ensures forall m :: m in members ==> FamilyKey(k)(m) in SortedKeys(k, members)
    ensures forall key :: key in SortedKeys(k, members) ==> Grouping.GroupOf(members, FamilyKey(k), key) != []
  {
    hide Sorting.Sort, Strings.Le, FamilyKey, Grouping.FirstKeys, Grouping.GroupOf;
    var first := Grouping.FirstKeys(members, FamilyKey(k));
    Grouping.KeysDistinct(members, FamilyKey(k));
    Grouping.KeysCover(members, FamilyKey(k));
    SortedDistinctAscends(first);
    forall key | key in first ensures Grouping.GroupOf(members, FamilyKey(k), key) != [] {
      var m :| m in members && FamilyKey(k)(m) == key;
      Grouping.GroupMembers(members, FamilyKey(k), key);
      assert m in Grouping.GroupOf(members, FamilyKey(k), key);
    }
  }

  /** `families` lists the family of every key, by ascending key. */
  ghost predicate IsClustering(k: Keying, members: seq<Member>, families: seq<Family>) {
    var keys := SortedKeys(k, members);
    |families| == |keys| && forall i :: 0 <= i < |keys| ==>
      Grouping.GroupOf(members, FamilyKey(k), keys[i]) != [] && families[i] == FamilyAt(k, members, keys[i])
  }

  /** opportunity/clustering.py:222-256. */
  method ClusterMembers(k: Keying, members: seq<Member>) returns (families: seq<Family>)
    ensures IsClustering(k, members, families)
  {
    hide Sorting.Sort, Strings.Le, Grouping.FirstKeys, Grouping.GroupOf, Grouping.Groups, FamilyOf, FamilyKey;
    var keys, groups := Grouping.Group(members, FamilyKey(k));
    var sorted := Sorting.Sort(keys, Strings.Le);
    GroupsByKey(k, members, keys, groups);
    families := [];
    for i := 0 to |sorted|
      invariant |families| == i
      invariant forall j :: 0 <= j < i ==> families[j] == FamilyAt(k, members, sorted[j])
    {
      var group := Sorting.Sort(groups[sorted[i]], IdLe);
      families := families + [FamilyOf(k, sorted[i], group)];
    }
  }

  lemma GroupsByKey(k: Keying, members: seq<Member>, keys: seq<string>, groups: map<string, seq<Member>>)
    requires Grouping.Groups(keys, groups, members, FamilyKey(k))
    ensures var sorted := Sorting.Sort(keys, Strings.Le);
      && sorted == SortedKeys(k, members)
      && forall i :: 0 <= i < |sorted| ==>
           sorted[i] in groups && groups[sorted[i]] == Grouping.GroupOf(members, FamilyKey(k), sorted[i]) != []
  {
    hide Sorting.Sort, Strings.Le, Grouping.FirstKeys, Grouping.GroupOf, FamilyKey;
    SortedKeysMeaning(k, members);
    Sorting.SortMembers(keys, Strings.Le);
    var sorted := Sorting.Sort(keys, Strings.Le);
    assert forall i :: 0 <= i < |sorted| ==> sorted[i] in sorted;
  }

  /** A family holds exactly the members filed under its key, ordered by id. */
  lemma FamilyMeaning(k: Keying, members: seq<Member>, families: seq<Family>, i: nat) returns (group: seq<Member>)
    requires IsClustering(k, members, families) && i < |families|
    ensures group != [] && families[i].key == SortedKeys(k, members)[i]
    ensures Describes(families[i], group) && Sorting.Sorted(group, IdLe)
    ensures |families[i].memberIds| == |group|
    ensures forall a, b :: 0 <= a < b < |group| ==> Strings.Le(families[i].memberIds[a], families[i].memberIds[b])
    ensures multiset(group) == multiset(Grouping.GroupOf(members, FamilyKey(k), families[i].key))
    ensures forall m :: m in group <==> m in members && FamilyKey(k)(m) == families[i].key
    ensures families[i].employer == group[0].organization && families[i].title == k.title(group[0].title)
  {
    hide Describes, FamilyKey, SortedKeys, Grouping.GroupOf, Sorting.Sort, IdLe;
    var key := SortedKeys(k, members)[i];
    var g := Grouping.GroupOf(members, FamilyKey(k), key);
    group := Sorting.Sort(g, IdLe);
    FamilyDescribes(k, key, group);
    Preorders();
    Sorting.SortSorted(g, IdLe);
    Sorting.SortMembers(g, IdLe);
    Grouping.GroupMembers(members, FamilyKey(k), key);
    IdsAscend(families[i], group);
  }

  lemma IdsAscend(f: Family, group: seq<Member>)
    requires Describes(f, group) && Sorting.Sorted(group, IdLe)
    ensures |f.memberIds| == |group|
    ensures forall a, b :: 0 <= a < b < |group| ==> Strings.Le(f.memberIds[a], f.memberIds[b])
  {
    hide Strings.Le, Stands, Ascending;
    forall a, b | 0 <= a < b < |group| ensures Strings.Le(f.memberIds[a], f.memberIds[b]) {
      assert IdLe(group[a], group[b]);
    }
  }

  function Total(families: seq<Family>): nat {
    if families == [] then 0 else Total(families[..|families| - 1]) + families[|families| - 1].count
  }

  lemma {:induction false} TotalIsJoined(k: Keying, members: seq<Member>, families: seq<Family>, n: nat)
    requires IsClustering(k, members, families) && n <= |families|
    ensures Total(families[..n]) == |Grouping.Joined(members, FamilyKey(k), SortedKeys(k, members)[..n])|
  {
    if n > 0 {
      hide FamilyKey, SortedKeys, Grouping.GroupOf, Grouping.Joined, Total, FamilyAt;
      TotalIsJoined(k, members, families, n - 1);
      TotalStep(families, n - 1);
      JoinedStep(members, FamilyKey(k), SortedKeys(k, members), n - 1);
      CountIsGroup(k, members, families, n - 1);
    }
  }

  lemma TotalStep(families: seq<Family>, n: nat)
    requires n < |families|
    ensures Total(families[..n + 1]) == Total(families[..n]) + families[n].count
  {
    assert families[..n + 1][..n] == families[..n];
  }

  lemma JoinedStep(members: seq<Member>, key: Member -> string, order: seq<string>, n: nat)
    requires n < |order|
    ensures |Grouping.Joined(members, key, order[..n + 1])|
         == |Grouping.Joined(members, key, order[..n])| + |Grouping.GroupOf(members, key, order[n])|
  {
    assert order[..n + 1][..n] == order[..n];
  }

  lemma CountIsGroup(k: Keying, members: seq<Member>, families: seq<Family>, i: nat)
    requires IsClustering(k, members, families) && i < |families|
    ensures families[i].count == |Grouping.GroupOf(members, FamilyKey(k), SortedKeys(k, members)[i])|
  {
  }

  /** The families partition the input: keys strictly ascend, every member has one family, and the
      member counts add up. */
  lemma ClusterPartition(k: Keying, members: seq<Member>, families: seq<Family>)
    requires IsClustering(k, members, families)
    ensures forall i, j :: 0 <= i < j < |families| ==> Strings.Lt(families[i].key, families[j].key)
    ensures forall m :: m in members ==> exists i :: 0 <= i < |families| && families[i].key == FamilyKey(k)(m)
    ensures Total(families) == |members|
  {
    hide FamilyKey, SortedKeys, Grouping.GroupOf, Grouping.Joined, FamilyOf, Strings.Lt;
    var keys := SortedKeys(k, members);
    SortedKeysMeaning(k, members);
    forall i | 0 <= i < |families| ensures families[i].key == keys[i] {
      var _ := FamilyMeaning(k, members, families, i);
    }
    forall m | m in members ensures exists i :: 0 <= i < |families| && families[i].key == FamilyKey(k)(m) {
      var i :| 0 <= i < |keys| && keys[i] == FamilyKey(k)(m);
      assert families[i].key == keys[i];
    }
    TotalIsJoined(k, members, families, |families|);
    assert families[..|families|] == families && keys[..|keys|] == keys;
    Grouping.JoinedPermutation(members, FamilyKey(k), keys);
    Sorting.SameLength(Grouping.Joined(members, FamilyKey(k), keys), members);
  }

  // ----- input order does not matter -----

  lemma {:induction false} GroupRemoveAt(s: seq<Member>, i: nat, key: Member -> string, c: string)
    requires i < |s|
    ensures multiset(Grouping.GroupOf(s, key, c))
         == multiset(Grouping.GroupOf(Sorting.RemoveAt(s, i), key, c))
            + if key(s[i]) == c then multiset{s[i]} else multiset{}
  {
    hide Grouping.GroupOf;
    var a, b := s[..i], s[i + 1..];
    assert s == (a + [s[i]]) + b;
    Grouping.GroupAppend(a + [s[i]], b, key, c);
    Grouping.GroupSnoc(a, s[i], key, c);
    Grouping.GroupAppend(a, b, key, c);
  }

  lemma {:induction false} GroupPermutation(a: seq<Member>, b: seq<Member>, key: Member -> string, c: string)
    requires multiset(a) == multiset(b)
    ensures multiset(Grouping.GroupOf(a, key, c)) == multiset(Grouping.GroupOf(b, key, c))
  {
    if b == [] {
      assert |multiset(a)| == |a|;
    } else {
      hide Grouping.GroupOf;
      var i := Sorting.TakeOut(a, b);
      GroupRemoveAt(a, i, key, c);
      GroupRemoveAt(b, 0, key, c);
      assert Sorting.RemoveAt(b, 0) == b[1..];
      GroupPermutation(Sorting.RemoveAt(a, i), b[1..], key, c);
    }
  }

  lemma {:induction false} AscendingUnique(a: seq<string>, b: seq<string>)
    requires Ascending(a) && Ascending(b) && forall x :: x in a <==> x in b
    ensures a == b
  {
    if a == [] {
      Sorting.HeadIsMember(b);
    } else {
      hide Strings.Le;
      assert a[0] in b && a[0] in a;
      assert b[0] in a;
      var i :| 0 <= i < |b| && b[i] == a[0];
      var j :| 0 <= j < |a| && a[j] == b[0];
      Strings.LtAsymmetric(a[0], b[0]);
      AscendingTail(a);
      AscendingTail(b);
      AscendingUnique(a[1..], b[1..]);
    }
  }

  lemma AscendingTail(a: seq<string>)
    requires a != [] && Ascending(a)
    ensures Ascending(a[1..]) && a == [a[0]] + a[1..]
    ensures forall x :: x in a[1..] <==> x in a && x != a[0]
  {
    forall x | x in a && x != a[0] ensures x in a[1..] {
      var i :| 0 <= i < |a| && a[i] == x;
      assert a[1..][i - 1] == x;
    }
  }

  lemma {:induction false} GroupDistinct(s: seq<Member>, key: Member -> string, c: string)
    requires DistinctIds(s)
    ensures DistinctIds(Grouping.GroupOf(s, key, c))
  {
    if s != [] {
      var n := |s| - 1;
      GroupDistinct(s[..n], key, c);
      var g := Grouping.GroupOf(s[..n], key, c);
      Grouping.GroupMembers(s[..n], key, c);
      forall i | 0 <= i < |g| ensures IdOf(g[i]) != IdOf(s[n]) {
        assert g[i] in s[..n];
        var j :| 0 <= j < n && s[j] == g[i];
      }
    }
  }

  lemma KeysPermutation(k: Keying, a: seq<Member>, b: seq<Member>)
    requires multiset(a) == multiset(b)
    ensures SortedKeys(k, a) == SortedKeys(k, b)
  {
    hide Sorting.Sort, Strings.Le, FamilyKey, Grouping.FirstKeys, Ascending;
    Sorting.SameMembers(a, b);
    var f, g := Grouping.FirstKeys(a, FamilyKey(k)), Grouping.FirstKeys(b, FamilyKey(k));
    Grouping.KeysDistinct(a, FamilyKey(k));
    Grouping.KeysDistinct(b, FamilyKey(k));
    Grouping.KeysCover(a, FamilyKey(k));
    Grouping.KeysCover(b, FamilyKey(k));
    forall x ensures x in f <==> x in g {
      if x in f {
        var m :| m in a && FamilyKey(k)(m) == x;
        assert m in b;
      }
      if x in g {
        var m :| m in b && FamilyKey(k)(m) == x;
        assert m in a;
      }
    }
    SortedDistinctAscends(f);
    SortedDistinctAscends(g);
    AscendingUnique(SortedKeys(k, a), SortedKeys(k, b));
  }

  /** Any order of the same postings gives the same families. */
  lemma ClusterPermutation(k: Keying, a: seq<Member>, b: seq<Member>, fa: seq<Family>, fb: seq<Family>)
    requires multiset(a) == multiset(b) && DistinctIds(a)
    requires IsClustering(k, a, fa) && IsClustering(k, b, fb)
    ensures fa == fb
  {
    hide FamilyKey, SortedKeys, Grouping.GroupOf, FamilyOf, Sorting.Sort, Sorting.Preorder;
    KeysPermutation(k, a, b);
    forall i | 0 <= i < |fa| ensures fa[i] == fb[i] {
      var key := SortedKeys(k, a)[i];
      GroupPermutation(a, b, FamilyKey(k), key);
      GroupDistinct(a, FamilyKey(k), key);
      IdsSeparate(Grouping.GroupOf(a, FamilyKey(k), key));
      Preorders();
      Sorting.SortPermutation(Grouping.GroupOf(a, FamilyKey(k), key), Grouping.GroupOf(b, FamilyKey(k), key), IdLe);
    }
  }

  // ----- the corpus check -----

  /** `{m.opportunity.id: m}`: the last member with an id wins. */
  function ById(members: seq<Member>): map<string, Member> {
    if members == [] then map[]
    else ById(members[..|members| - 1])[members[|members| - 1].id := members[|members| - 1]]
  }

  lemma {:induction false} ByIdLookup(members: seq<Member>)
    ensures forall m :: m in members ==> m.id in ById(members)
    ensures forall id :: id in ById(members) ==> ById(members)[id] in members && ById(members)[id].id == id
  {
    if members != [] {
      var n := |members| - 1;
      ByIdLookup(members[..n]);
      assert members == members[..n] + [members[n]];
    }
  }

  /** The values of `of` among the family's ids. */
  function Values(f: Family, byId: map<string, Member>, of: Member -> string): set<string> {
    set id | id in f.memberIds && id in byId :: of(byId[id])
  }

  function Spanning(families: seq<Family>, byId: map<string, Member>, of: Member -> string): nat {
    if families == [] then 0
    else
      var n := |families| - 1;
      Spanning(families[..n], byId, of) + if |Values(families[n], byId, of)| > 1 then 1 else 0
  }

  lemma {:induction false} SpanningZero(families: seq<Family>, byId: map<string, Member>, of: Member -> string)
    ensures Spanning(families, byId, of) == 0 <==>
      forall i :: 0 <= i < |families| ==> |Values(families[i], byId, of)| <= 1
    ensures Spanning(families, byId, of) <= |families|
  {
    if families != [] {
      hide Values;
      SpanningZero(families[..|families| - 1], byId, of);
    }
  }

  function TitleKey(k: Keying): Member -> string { (m: Member) => k.title(m.title) }

  /** The values read back through the id table are those of the family's own members. */
  lemma ValuesAre(k: Keying, members: seq<Member>, families: seq<Family>, i: nat, of: Member -> string)
    requires IsClustering(k, members, families) && i < |families| && DistinctIds(members)
    ensures forall v :: v in Values(families[i], ById(members), of) <==>
      exists m :: m in members && FamilyKey(k)(m) == families[i].key && of(m) == v
  {
    hide FamilyKey, SortedKeys, IsClustering, ById;
    var byId := ById(members);
    var group := FamilyMeaning(k, members, families, i);
    ByIdLookup(members);
    forall v | v in Values(families[i], byId, of)
      ensures exists m :: m in members && FamilyKey(k)(m) == families[i].key && of(m) == v
    {
      var id :| id in families[i].memberIds && id in byId && of(byId[id]) == v;
      var j :| 0 <= j < |group| && families[i].memberIds[j] == id;
      assert group[j] in group;
      SameIdSame(members, group[j], byId[id]);
    }
    forall m | m in members && FamilyKey(k)(m) == families[i].key ensures of(m) in Values(families[i], byId, of) {
      assert m in group;
      var j :| 0 <= j < |group| && group[j] == m;
      assert families[i].memberIds[j] == m.id;
      SameIdSame(members, m, byId[m.id]);
    }
  }

  /** No family ever spans two normalized titles. */
  lemma CrossTitleZero(k: Keying, members: seq<Member>, families: seq<Family>)
    requires IsClustering(k, members, families) && DistinctIds(members) && Ideal(k)
    ensures Spanning(families, ById(members), TitleKey(k)) == 0
  {
    hide FamilyKey, IsClustering, Ideal, Values, ById, Spanning;
    var byId := ById(members);
    forall i | 0 <= i < |families| ensures |Values(families[i], byId, TitleKey(k))| <= 1 {
      var vs := Values(families[i], byId, TitleKey(k));
      ValuesAre(k, members, families, i, TitleKey(k));
      ManyIff(vs);
      forall x, y | x in vs && y in vs ensures x == y {
        var a :| a in members && FamilyKey(k)(a) == families[i].key && TitleKey(k)(a) == x;
        var b :| b in members && FamilyKey(k)(b) == families[i].key && TitleKey(k)(b) == y;
        SameFamilyIff(k, a, b);
      }
    }
    SpanningZero(families, byId, TitleKey(k));
  }

  /** The two postings normalize to one employer and one title. */
  predicate Alike(k: Keying, a: Member, b: Member) {
    k.employer(a.organization) == k.employer(b.organization) && k.title(a.title) == k.title(b.title)
  }

  /** Postings that normalize alike spell their employer alike. */
  ghost predicate EmployersSpeltAlike(k: Keying, members: seq<Member>) {
    forall a, b :: a in members && b in members && Alike(k, a, b) ==> a.organization == b.organization
  }

  /** The employer count is zero exactly if no two postings that normalize alike spell their
      employer differently. */
  lemma CrossEmployerZeroIff(k: Keying, members: seq<Member>, families: seq<Family>)
    requires IsClustering(k, members, families) && DistinctIds(members) && Ideal(k)
    ensures Spanning(families, ById(members), OrganizationOf) == 0 <==> EmployersSpeltAlike(k, members)
  {
    hide FamilyKey, IsClustering, Ideal, Values, ById, Spanning;
    var byId := ById(members);
    SpanningZero(families, byId, OrganizationOf);
    if EmployersSpeltAlike(k, members) {
      forall i | 0 <= i < |families| ensures |Values(families[i], byId, OrganizationOf)| <= 1 {
        OneSpelling(k, members, families, i);
      }
    }
    if Spanning(families, byId, OrganizationOf) == 0 {
      forall a, b | a in members && b in members && Alike(k, a, b)
        ensures a.organization == b.organization
      {
        SameFamilyIff(k, a, b);
        ClusterPartition(k, members, families);
        var i :| 0 <= i < |families| && families[i].key == FamilyKey(k)(a);
        ValuesAre(k, members, families, i, OrganizationOf);
        ManyIff(Values(families[i], byId, OrganizationOf));
        assert OrganizationOf(a) in Values(families[i], byId, OrganizationOf);
        assert OrganizationOf(b) in Values(families[i], byId, OrganizationOf);
      }
    }
  }

  lemma OneSpelling(k: Keying, members: seq<Member>, families: seq<Family>, i: nat)
    requires IsClustering(k, members, families) && DistinctIds(members) && Ideal(k) && EmployersSpeltAlike(k, members)
    requires i < |families|
    ensures |Values(families[i], ById(members), OrganizationOf)| <= 1
  {
    hide FamilyKey, IsClustering, Ideal, Values, ById;
    var vs := Values(families[i], ById(members), OrganizationOf);
    ValuesAre(k, members, families, i, OrganizationOf);
    ManyIff(vs);
    forall x, y | x in vs && y in vs ensures x == y {
      var a :| a in members && FamilyKey(k)(a) == families[i].key && OrganizationOf(a) == x;
      var b :| b in members && FamilyKey(k)(b) == families[i].key && OrganizationOf(b) == y;
      SameFamilyIff(k, a, b);
    }
  }

  /** opportunity/clustering.py:265-297: with unique ids the title count is always zero, and the
      employer count is zero exactly if no employer key hides two spellings. */
  method CheckFamilyInvariants(k: Keying, members: seq<Member>)
      returns (count: nat, crossEmployer: nat, crossTitle: nat)
    ensures count == |SortedKeys(k, members)| && crossEmployer <= count && crossTitle <= count
    ensures DistinctIds(members) && Ideal(k) ==> crossTitle == 0
    ensures DistinctIds(members) && Ideal(k) ==> (crossEmployer == 0 <==> EmployersSpeltAlike(k, members))
  {
    hide Values, SortedKeys, FamilyOf, FamilyKey, Ideal, EmployersSpeltAlike, DistinctIds, ById;
    var families := ClusterMembers(k, members);
    var byId := ById(members);
    count, crossEmployer, crossTitle := |families|, 0, 0;
    for i := 0 to |families|
      invariant crossEmployer == Spanning(families[..i], byId, OrganizationOf)
      invariant crossTitle == Spanning(families[..i], byId, TitleKey(k))
    {
      assert families[..i + 1][..i] == families[..i];
      if |Values(families[i], byId, OrganizationOf)| > 1 {
        crossEmployer := crossEmployer + 1;
      }
      if |Values(families[i], byId, TitleKey(k))| > 1 {
        crossTitle := crossTitle + 1;
      }
    }
    assert families[..|families|] == families;
    SpanningZero(families, byId, OrganizationOf);
    SpanningZero(families, byId, TitleKey(k));
    if DistinctIds(members) && Ideal(k) {
      CrossTitleZero(k, members, families);
      CrossEmployerZeroIff(k, members, families);
    }
  }

  // ----- one employer, two spellings -----

  function Lower(c: char): char {
    if 'A' <= c <= 'Z' then 'a' + (c - 'A') else c
  }

  predicate Alphanumeric(c: char) {
    'a' <= c <= 'z' || '0' <= c <= '9'
  }

  /** opportunity/clustering.py:136-137, on ASCII names: lower-case, letters and digits only. */
  function EmployerKey(name: string): string {
    if name == "" then "" else Kept(name[0]) + EmployerKey(name[1..])
  }

  function Kept(c: char): string {
    if Alphanumeric(Lower(c)) then [Lower(c)] else ""
  }

  lemma {:induction false} KeyAlphabet(name: string)
    ensures '|' !in EmployerKey(name)
  {
    if name != "" {
      KeyAlphabet(name[1..]);
    }
  }

  lemma {:induction false} KeyAppend(a: string, b: string)
    ensures EmployerKey(a + b) == EmployerKey(a) + EmployerKey(b)
  {
    if a == "" {
      assert a + b == b;
    } else {
      hide Kept;
      KeyAppend(a[1..], b);
      Sorting.TailOfAppend(a, b);
      Sorting.Associative(Kept(a[0]), EmployerKey(a[1..]), EmployerKey(b));
    }
  }

  /** A separator anywhere in a name does not change its key. */
  lemma SeparatorIgnored(a: string, c: char, b: string)
    requires !Alphanumeric(Lower(c))
    ensures EmployerKey(a + [c] + b) == EmployerKey(a + b)
  {
    assert EmployerKey([c]) == "" by {
      assert [c][1..] == "";
    }
    KeyAppend(a + [c], b);
    KeyAppend(a, [c]);
    KeyAppend(a, b);
  }

  lemma SpellingsAreIdeal(title: string -> string, digest: string -> string)
    requires forall x, y :: digest(x) == digest(y) ==> x == y
    ensures Ideal(Keying(EmployerKey, title, digest))
  {
    forall s ensures '|' !in EmployerKey(s) {
      KeyAlphabet(s);
    }
  }

  lemma TwoMembers(k: Keying, m: Member, m': Member)
    requires k.employer(m.organization) == k.employer(m'.organization) && m.title == m'.title
    requires m.id != m'.id && m.organization != m'.organization
    ensures DistinctIds([m, m']) && !EmployersSpeltAlike(k, [m, m']) && |SortedKeys(k, [m, m'])| == 1
  {
    var key := FamilyKey(k);
    assert m in [m, m'] && m' in [m, m'] && Alike(k, m, m');
    assert Payload(k, m.organization, m.title) == Payload(k, m'.organization, m'.title);
    assert key(m) == key(m');
    assert [m, m'] == ([] + [m]) + [m'];
    Grouping.NoKeys(key);
    Grouping.KeysSnoc([], m, key);
    Grouping.KeysSnoc([] + [m], m', key);
  }

  /** The docstring's promise fails for every employer name: spelt once with and once without a
      separator - "Acme, Inc" and "Acme Inc" - on two postings with one title, it is counted as a
      family that spans two employers. */
  method TwoSpellings(title: string -> string, digest: string -> string, a: string, c: char, b: string, posted: string,
                      id: string, id': string)
      returns (count: nat, crossEmployer: nat, crossTitle: nat)
    requires forall x, y :: digest(x) == digest(y) ==> x == y
    requires !Alphanumeric(Lower(c)) && id != id'
    ensures count == crossEmployer == 1 && crossTitle == 0
  {
    hide Ideal, DistinctIds, EmployersSpeltAlike, SortedKeys, EmployerKey, FamilyKey;
    var k := Keying(EmployerKey, title, digest);
    var m := Member(id, a + [c] + b, posted, "", None, None);
    var m' := Member(id', a + b, posted, "", None, None);
    assert |m.organization| == |m'.organization| + 1;
    SeparatorIgnored(a, c, b);
    SpellingsAreIdeal(title, digest);
    TwoMembers(k, m, m');
    count, crossEmployer, crossTitle := CheckFamilyInvariants(k, [m, m']);
  }
}
