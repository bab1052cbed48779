/** matching/document_model.py:509-562: which skills a document shows, and in what order. */
module Skills {
  import Strings
  import Sorting
  import Grouping

  /** A verified `skill.name` assertion; `id` keys the truth graph. */
  datatype Assertion = Assertion(id: string, subject: string, name: string)

  function IdOf(a: Assertion): string { a.id }

  /** The sort key `(0 if relevant else 1, id)`. */
  predicate RanksBefore(relevant: Assertion -> bool, a: Assertion, b: Assertion) {
    if relevant(a) != relevant(b) then relevant(a) else Strings.Le(a.id, b.id)
  }

  function Ranks(relevant: Assertion -> bool): (Assertion, Assertion) -> bool {
    (a, b) => RanksBefore(relevant, a, b)
  }

  /** Python's `s[:n]` stops here. */
  function Cut(length: nat, n: int): (r: nat)
    ensures r <= length
  {
    if n >= length then length else if n >= 0 then n else if length + n >= 0 then length + n else 0
  }

  /** The category an assertion is filed under. */
  function Category(categories: map<string, string>): Assertion -> string {
    (a: Assertion) => if a.subject in categories then categories[a.subject] else "General"
  }

  predicate HasCategories(selected: seq<Assertion>, categories: map<string, string>) {
    exists a :: a in selected && a.subject in categories
  }

  /** Categories by first appearance, order inside each unchanged. */
  function Grouped(selected: seq<Assertion>, categories: map<string, string>): seq<Assertion> {
    var key := Category(categories);
    Grouping.Joined(selected, key, Grouping.FirstKeys(selected, key))
  }

  // ----- ranks -----

  /** `{a.id: idx}`. */
  function RankOf(selected: seq<Assertion>): map<string, nat> {
    if selected == [] then map[]
    else RankOf(selected[..|selected| - 1])[selected[|selected| - 1].id := |selected| - 1]
  }

  function Rank(ranks: map<string, nat>, a: Assertion): nat {
    if a.id in ranks then ranks[a.id] else 0
  }

  /** `rank` is the position in `s`. */
  ghost predicate Positions(s: seq<Assertion>, ranks: map<string, nat>) {
    forall i :: 0 <= i < |s| ==> Rank(ranks, s[i]) == i
  }

  lemma {:induction false} RankIsPosition(s: seq<Assertion>)
    requires Sorting.DistinctBy(s, IdOf)
    ensures Positions(s, RankOf(s))
  {
    if s != [] {
      var n := |s| - 1;
      RankIsPosition(s[..n]);
      forall i | 0 <= i < n ensures Rank(RankOf(s), s[i]) == i {
        assert IdOf(s[i]) != IdOf(s[n]);
        assert Rank(RankOf(s[..n]), s[..n][i]) == i;
        assert s[..n][i].id in RankOf(s[..n]) by { RankDomain(s[..n], i); }
      }
    }
  }

  lemma {:induction false} RankDomain(s: seq<Assertion>, i: nat)
    requires i < |s|
    ensures s[i].id in RankOf(s)
  {
    if i < |s| - 1 {
      RankDomain(s[..|s| - 1], i);
    }
  }

  /** `min(relevance_rank[a.id] for a in group)`. */
  function BestRank(group: seq<Assertion>, ranks: map<string, nat>): nat {
    if group == [] then 0
    else if |group| == 1 then Rank(ranks, group[0])
    else
      var best, last := BestRank(group[..|group| - 1], ranks), Rank(ranks, group[|group| - 1]);
      if last < best then last else best
  }

  function ByRank(ranks: map<string, nat>): (Assertion, Assertion) -> bool {
    (a, b) => Rank(ranks, a) <= Rank(ranks, b)
  }

  function ByBestRank(groups: map<string, seq<Assertion>>, ranks: map<string, nat>): (string, string) -> bool {
    (c, d) => BestRank(Of(groups, c), ranks) <= BestRank(Of(groups, d), ranks)
  }

  function Of(groups: map<string, seq<Assertion>>, c: string): seq<Assertion> {
    if c in groups then groups[c] else []
  }

  ghost predicate Ascends(g: seq<Assertion>, ranks: map<string, nat>) {
    forall i, j :: 0 <= i < j < |g| ==> Rank(ranks, g[i]) <= Rank(ranks, g[j])
  }

  ghost predicate Below(g: seq<Assertion>, ranks: map<string, nat>, n: nat) {
    forall i :: 0 <= i < |g| ==> Rank(ranks, g[i]) < n
  }

  /** A group is listed by rank, and nothing in it ranks at or past the end. */
  lemma {:induction false} GroupAscends(s: seq<Assertion>, key: Assertion -> string, c: string, ranks: map<string, nat>)
    requires Positions(s, ranks)
    ensures Ascends(Grouping.GroupOf(s, key, c), ranks) && Below(Grouping.GroupOf(s, key, c), ranks, |s|)
  {
    if s != [] {
      hide Rank;
      var n := |s| - 1;
      assert Rank(ranks, s[n]) == n;
      GroupAscends(s[..n], key, c, ranks);
    }
  }

  lemma {:induction false} AscendingBest(g: seq<Assertion>, ranks: map<string, nat>)
    requires g != [] && Ascends(g, ranks)
    ensures BestRank(g, ranks) == Rank(ranks, g[0])
  {
    if |g| > 1 {
      AscendingBest(g[..|g| - 1], ranks);
    }
  }

  ghost predicate CategoriesAscend(s: seq<Assertion>, key: Assertion -> string, ranks: map<string, nat>,
                                   r: seq<string>) {
    && (forall i :: 0 <= i < |r| ==> Grouping.GroupOf(s, key, r[i]) != [])
    && (forall i, j :: 0 <= i < j < |r| ==> BestOf(s, key, r[i], ranks) <= BestOf(s, key, r[j], ranks))
    && (forall i :: 0 <= i < |r| ==> BestOf(s, key, r[i], ranks) < |s|)
  }

  lemma OldCategories(s: seq<Assertion>, a: Assertion, key: Assertion -> string, ranks: map<string, nat>,
                      r: seq<string>)
    requires Positions(s + [a], ranks) && CategoriesAscend(s, key, ranks, r)
    ensures CategoriesAscend(s + [a], key, ranks, r)
    ensures forall i :: 0 <= i < |r| ==> BestOf(s + [a], key, r[i], ranks) < |s|
  {
    hide Grouping.GroupOf, BestOf, Positions;
    forall i | 0 <= i < |r|
      ensures Grouping.GroupOf(s + [a], key, r[i]) != []
      ensures BestOf(s + [a], key, r[i], ranks) == BestOf(s, key, r[i], ranks)
    {
      BestSnoc(s, a, key, r[i], ranks);
    }
  }

  lemma NewCategory(s: seq<Assertion>, a: Assertion, key: Assertion -> string, ranks: map<string, nat>)
    requires Positions(s + [a], ranks) && key(a) !in Grouping.FirstKeys(s, key)
    ensures Grouping.GroupOf(s + [a], key, key(a)) == [a] && BestOf(s + [a], key, key(a), ranks) == |s|
  {
    hide Grouping.GroupOf, Grouping.FirstKeys, Rank;
    Grouping.NoGroup(s, key, key(a));
    Grouping.GroupSnoc(s, a, key, key(a));
    assert (s + [a])[|s|] == a && [] + [a] == [a];
  }

  lemma CategoriesSnoc(s: seq<Assertion>, a: Assertion, key: Assertion -> string, ranks: map<string, nat>)
    requires Positions(s + [a], ranks) && CategoriesAscend(s, key, ranks, Grouping.FirstKeys(s, key))
    ensures CategoriesAscend(s + [a], key, ranks, Grouping.FirstKeys(s + [a], key))
  {
    hide Grouping.FirstKeys, Grouping.GroupOf, BestOf, Rank, Positions;
    Grouping.KeysSnoc(s, a, key);
    OldCategories(s, a, key, ranks, Grouping.FirstKeys(s, key));
    if key(a) in Grouping.FirstKeys(s, key) {
      assert Grouping.FirstKeys(s, key) + [] == Grouping.FirstKeys(s, key);
    } else {
      NewCategory(s, a, key, ranks);
    }
  }

  /** The best ranks of the categories ascend in order of first appearance. */
  lemma {:induction false} KeysSorted(s: seq<Assertion>, key: Assertion -> string, ranks: map<string, nat>)
    requires Positions(s, ranks)
    ensures CategoriesAscend(s, key, ranks, Grouping.FirstKeys(s, key))
  {
    if s != [] {
      hide Grouping.FirstKeys, CategoriesAscend, Rank;
      KeysSorted(s[..|s| - 1], key, ranks);
      Grouping.InitLast(s);
      CategoriesSnoc(s[..|s| - 1], s[|s| - 1], key, ranks);
    }
  }

  function BestOf(s: seq<Assertion>, key: Assertion -> string, c: string, ranks: map<string, nat>): nat {
    BestRank(Grouping.GroupOf(s, key, c), ranks)
  }

  lemma BestSnoc(s: seq<Assertion>, a: Assertion, key: Assertion -> string, c: string, ranks: map<string, nat>)
    requires Positions(s + [a], ranks) && Grouping.GroupOf(s, key, c) != []
    ensures Grouping.GroupOf(s + [a], key, c) != []
    ensures BestOf(s + [a], key, c, ranks) == BestOf(s, key, c, ranks)
  {
    assert forall i :: 0 <= i < |s| ==> (s + [a])[i] == s[i];
    hide Grouping.GroupOf, BestRank, Rank;
    GroupAscends(s, key, c, ranks);
    GroupAscends(s + [a], key, c, ranks);
    Grouping.GroupSnoc(s, a, key, c);
    AscendingBest(Grouping.GroupOf(s, key, c), ranks);
    AscendingBest(Grouping.GroupOf(s + [a], key, c), ranks);
  }

  // ----- the section -----

  lemma NothingToGroup(s: seq<Assertion>, categories: map<string, string>)
    requires !HasCategories(s, categories)
    ensures Grouped(s, categories) == s
  {
    UncategorisedKeys(s, categories);
    hide Category, Grouping.FirstKeys, Grouping.GroupOf, HasCategories;
    var key := Category(categories);
    if s == [] {
      Grouping.NoKeys(key);
    } else {
      OneKey(s, key, "General");
      Grouping.GroupUniform(s, key, "General", "General");
      JoinedOne(s, key, "General");
    }
  }

  lemma UncategorisedKeys(s: seq<Assertion>, categories: map<string, string>)
    requires !HasCategories(s, categories)
    ensures forall x :: x in s ==> Category(categories)(x) == "General"
  {
  }

  lemma OneKey(s: seq<Assertion>, key: Assertion -> string, c: string)
    requires s != [] && forall x :: x in s ==> key(x) == c
    ensures Grouping.FirstKeys(s, key) == [c]
  {
    hide Grouping.FirstKeys;
    assert [] + s == s;
    Grouping.UniformKeys([], s, key, c);
    Grouping.NoKeys(key);
    assert [] + [c] == [c];
  }

  lemma JoinedOne(s: seq<Assertion>, key: Assertion -> string, c: string)
    ensures Grouping.Joined(s, key, [c]) == Grouping.GroupOf(s, key, c)
  {
    hide Grouping.GroupOf;
    assert [c][..0] == [];
    assert Grouping.Joined(s, key, []) == [];
  }

  method GroupSkills(selected: seq<Assertion>, categories: map<string, string>) returns (r: seq<Assertion>)
    requires Sorting.DistinctBy(selected, IdOf)
    ensures r == Grouped(selected, categories)
  {
    hide Grouping.FirstKeys, Grouping.GroupOf, Grouping.Joined, Sorting.Sort;
    hide Category, ByRank, Of, ByBestRank, RankOf, Positions;
    if !HasCategories(selected, categories) {
      NothingToGroup(selected, categories);
      return selected;
    }
    var ranks := RankOf(selected);
    RankIsPosition(selected);
    ghost var key := Category(categories);
    var keys, groups := Grouping.Group(selected, Category(categories));
    OrderIsFirstAppearance(selected, key, keys, groups, ranks);
    var order := Sorting.Sort(keys, ByBestRank(groups, ranks));
    r := [];
    NothingJoined(selected, key, order);
    for i := 0 to |order|
      invariant r == Grouping.Joined(selected, key, order[..i])
    {
      r := r + Sorting.Sort(Of(groups, order[i]), ByRank(ranks));
      JoinedStep(selected, key, order, i, groups, ranks);
    }
  }

  lemma OrderIsFirstAppearance(s: seq<Assertion>, key: Assertion -> string, keys: seq<string>,
                               groups: map<string, seq<Assertion>>, ranks: map<string, nat>)
    requires Positions(s, ranks) && Grouping.Groups(keys, groups, s, key)
    ensures Sorting.Sort(keys, ByBestRank(groups, ranks)) == keys
    ensures forall i :: 0 <= i < |keys| ==>
      Sorting.Sort(Of(groups, keys[i]), ByRank(ranks)) == Grouping.GroupOf(s, key, keys[i])
  {
    hide Grouping.FirstKeys, Grouping.GroupOf, BestRank, Rank, Sorting.Sort;
    KeysSorted(s, key, ranks);
    assert forall i :: 0 <= i < |keys| ==> keys[i] in groups;
    var le := ByBestRank(groups, ranks);
    forall i, j | 0 <= i < j < |keys| ensures le(keys[i], keys[j]) {
      assert BestOf(s, key, keys[i], ranks) <= BestOf(s, key, keys[j], ranks);
    }
    Sorting.SortOfSorted(keys, le);
    forall i | 0 <= i < |keys|
      ensures Sorting.Sort(Of(groups, keys[i]), ByRank(ranks)) == Grouping.GroupOf(s, key, keys[i])
    {
      GroupAlreadySorted(s, key, keys[i], ranks);
    }
  }

  lemma GroupAlreadySorted(s: seq<Assertion>, key: Assertion -> string, c: string, ranks: map<string, nat>)
    requires Positions(s, ranks)
    ensures var g := Grouping.GroupOf(s, key, c); Sorting.Sort(g, ByRank(ranks)) == g
  {
    hide Grouping.GroupOf, Rank, Sorting.Sort;
    GroupAscends(s, key, c, ranks);
    Sorting.SortOfSorted(Grouping.GroupOf(s, key, c), ByRank(ranks));
  }

  lemma NothingJoined(s: seq<Assertion>, key: Assertion -> string, order: seq<string>)
    ensures Grouping.Joined(s, key, order[..0]) == [] && order[..|order|] == order
  {
  }

  lemma JoinedStep(s: seq<Assertion>, key: Assertion -> string, order: seq<string>, i: nat,
                   groups: map<string, seq<Assertion>>, ranks: map<string, nat>)
    requires i < |order|
    requires Sorting.Sort(Of(groups, order[i]), ByRank(ranks)) == Grouping.GroupOf(s, key, order[i])
    ensures Grouping.Joined(s, key, order[..i + 1])
         == Grouping.Joined(s, key, order[..i]) + Sorting.Sort(Of(groups, order[i]), ByRank(ranks))
  {
    assert order[..i + 1][..i] == order[..i];
  }

  lemma RanksPreorder(relevant: Assertion -> bool)
    ensures Sorting.Preorder(Ranks(relevant))
  {
    forall a, b ensures RanksBefore(relevant, a, b) || RanksBefore(relevant, b, a) {
      Strings.LeTotal(a.id, b.id);
    }
    forall a, b, c | RanksBefore(relevant, a, b) && RanksBefore(relevant, b, c) ensures RanksBefore(relevant, a, c) {
      if Strings.Le(a.id, b.id) && Strings.Le(b.id, c.id) {
        Strings.LeTransitive(a.id, b.id, c.id);
      }
    }
  }

  method BuildSkillsSection(names: seq<Assertion>, relevant: Assertion -> bool, categories: map<string, string>,
                            maxSkills: int)
      returns (shown: seq<Assertion>, leftOut: seq<Assertion>)
    requires Sorting.DistinctBy(names, IdOf)
    ensures var ranked := Sorting.Sort(names, Ranks(relevant));
      var n := Cut(|ranked|, maxSkills);
      shown == Grouped(ranked[..n], categories) && leftOut == ranked[n..]
  {
    var ranked := Sorting.Sort(names, Ranks(relevant));
    var n := Cut(|ranked|, maxSkills);
    Sorting.PermutationDistinct(names, ranked, IdOf);
    leftOut := ranked[n..];
    shown := GroupSkills(ranked[..n], categories);
  }

  /** Grouping is a permutation with contiguous categories that keeps the order inside each
      category, the order in which categories first appear, and the first skill. */
  lemma GroupedMeaning(selected: seq<Assertion>, categories: map<string, string>)
    ensures var r, key := Grouped(selected, categories), Category(categories);
      && multiset(r) == multiset(selected)
      && Grouping.Contiguous(r, key)
      && Grouping.FirstKeys(r, key) == Grouping.FirstKeys(selected, key)
      && (forall c :: Grouping.GroupOf(r, key, c) == Grouping.GroupOf(selected, key, c))
      && (selected != [] ==> r != [] && r[0] == selected[0])
  {
    hide Grouping.FirstKeys, Grouping.GroupOf, Grouping.Joined, Grouping.Contiguous, Category;
    var key := Category(categories);
    var order := Grouping.FirstKeys(selected, key);
    Grouping.KeysDistinct(selected, key);
    Grouping.KeysCover(selected, key);
    Grouping.JoinedPermutation(selected, key, order);
    Grouping.JoinedContiguous(selected, key, order);
    forall c ensures Grouping.GroupOf(Grouped(selected, categories), key, c) == Grouping.GroupOf(selected, key, c) {
      Grouping.JoinedKeepsOrder(selected, key, order, c);
      if c !in order {
        Grouping.NoGroup(selected, key, c);
      }
    }
    forall c | c in order ensures Grouping.GroupOf(selected, key, c) != [] {
      Grouping.GroupMembers(selected, key, c);
      var x :| x in selected && key(x) == c;
      assert x in Grouping.GroupOf(selected, key, c);
    }
    Grouping.JoinedOrder(selected, key, order);
    if selected != [] {
      Grouping.GroupHead(selected, key);
      Grouping.JoinedHead(selected, key, order);
    }
  }

  /** Relevant skills come first, and then smaller ids. */
  predicate NoLater(relevant: Assertion -> bool, x: Assertion, y: Assertion) {
    (relevant(y) ==> relevant(x)) && (relevant(x) == relevant(y) ==> Strings.Le(x.id, y.id))
  }

  /** Skills without a category stand together with those filed under "General". */
  lemma Uncategorised(categories: map<string, string>, a: Assertion, b: Assertion)
    requires a.subject !in categories
    ensures Category(categories)(a) == Category(categories)(b) <==>
      b.subject !in categories || categories[b.subject] == "General"
    ensures b.subject in categories ==> Category(categories)(b) == categories[b.subject]
  {
  }

  /** The section shows the best-ranked skills and leaves the others, whatever order the graph
      lists them in. */
  lemma SectionMeaning(names: seq<Assertion>, relevant: Assertion -> bool, categories: map<string, string>,
                       maxSkills: int)
    ensures var ranked := Sorting.Sort(names, Ranks(relevant));
      var n := Cut(|ranked|, maxSkills);
      var shown, leftOut := Grouped(ranked[..n], categories), ranked[n..];
      && multiset(shown) + multiset(leftOut) == multiset(names)
      && (forall x, y :: x in shown && y in leftOut ==> NoLater(relevant, x, y))
      && (maxSkills >= 0 ==> |shown| <= maxSkills && (leftOut != [] ==> |shown| == maxSkills))
      && (maxSkills < 0 ==> |leftOut| <= -maxSkills && (shown != [] ==> |leftOut| == -maxSkills))
  {
    hide Sorting.Sort, Ranks, NoLater, Grouped, Sorting.Preorder;
    var ranked := Sorting.Sort(names, Ranks(relevant));
    var n := Cut(|ranked|, maxSkills);
    var shown := Grouped(ranked[..n], categories);
    assert multiset(shown) == multiset(ranked[..n]) by {
      GroupedMeaning(ranked[..n], categories);
    }
    Sorting.SameMembers(shown, ranked[..n]);
    Sorting.SameLength(shown, ranked[..n]);
    SplitContents(ranked, n);
    RanksPreorder(relevant);
    Sorting.SortSorted(names, Ranks(relevant));
    SplitSorted(ranked, n, relevant);
  }

  lemma SplitContents<T>(s: seq<T>, n: nat)
    requires n <= |s|
    ensures multiset(s[..n]) + multiset(s[n..]) == multiset(s)
  {
    assert s == s[..n] + s[n..];
  }

  lemma SplitSorted(s: seq<Assertion>, n: nat, relevant: Assertion -> bool)
    requires n <= |s| && Sorting.Sorted(s, Ranks(relevant))
    ensures forall x, y :: x in s[..n] && y in s[n..] ==> NoLater(relevant, x, y)
  {
    forall x, y | x in s[..n] && y in s[n..] ensures NoLater(relevant, x, y) {
      var i :| 0 <= i < n && s[i] == x;
      var j :| 0 <= j < |s| - n && s[n..][j] == y;
      assert Ranks(relevant)(s[i], s[n + j]);
    }
  }

  lemma SectionPermutation(a: seq<Assertion>, b: seq<Assertion>, relevant: Assertion -> bool)
    requires multiset(a) == multiset(b) && Sorting.DistinctBy(a, IdOf)
    ensures Sorting.Sort(a, Ranks(relevant)) == Sorting.Sort(b, Ranks(relevant))
  {
    RanksPreorder(relevant);
    forall x, y | x in a && y in a && Ranks(relevant)(x, y) && Ranks(relevant)(y, x) ensures x == y {
      Strings.LeAntisymmetric(x.id, y.id);
      Sorting.DistinctMembers(a, IdOf, x, y);
    }
    Sorting.SortPermutation(a, b, Ranks(relevant));
  }
}
