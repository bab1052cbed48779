/** api/facets.py:181-278 and the batched aggregation of api/routes_api.py:167-176, 415-426,
    978-985, where each batch reads the clock anew. */
module Facets {
  import opened Wrappers
  import Strings
  import Sorting

  datatype FacetSettings = FacetSettings(included: seq<string>, excluded: seq<string>)

  datatype FacetDefinition<!C> = FacetDefinition(id: string, available: bool, valueOf: C -> string)

  datatype State = Include | Exclude | Off
  datatype Entry = Entry(value: string, count: nat, state: State)

  datatype Payload = Payload(
    id: string, available: bool, values: seq<Entry>, excludedCount: nat, included: seq<string>, excluded: seq<string>)

  /** api/facets.py:181-195, on the facet value. */
  predicate Hides(row: Option<FacetSettings>, value: string) {
    row.Some? && (row.value.included != [] || row.value.excluded != [])
    && ((row.value.included != [] && value !in row.value.included)
        || (row.value.excluded != [] && value in row.value.excluded))
  }

  function Included(row: Option<FacetSettings>): seq<string> { if row.Some? then row.value.included else [] }
  function Excluded(row: Option<FacetSettings>): seq<string> { if row.Some? then row.value.excluded else [] }

  function StateOf(row: Option<FacetSettings>, value: string): State {
    if value in Included(row) then Include else if value in Excluded(row) then Exclude else Off
  }

  /** A value is shown exactly if it is included, or nothing is, and it is not excluded. */
  lemma ShownIff(row: Option<FacetSettings>, value: string)
    ensures !Hides(row, value) <==>
      (Included(row) == [] || value in Included(row)) && value !in Excluded(row)
  {
    Sorting.HeadIsMember(Excluded(row));
  }

  /** The state listed with a value tells why it is hidden: it is excluded, or others are included. */
  lemma StateTells(row: Option<FacetSettings>, value: string)
    ensures StateOf(row, value) == Off ==> (Hides(row, value) <==> Included(row) != [])
    ensures StateOf(row, value) == Exclude ==> Hides(row, value)
    ensures StateOf(row, value) == Include ==> (Hides(row, value) <==> value in Excluded(row))
    ensures StateOf(row, value) == Include <==> value in Included(row)
    ensures StateOf(row, value) == Off <==> value !in Included(row) && value !in Excluded(row)
  {
    ShownIff(row, value);
    Sorting.HeadIsMember(Included(row));
  }

  // ----- counting values -----

  function CountOf(vs: seq<string>, v: string): nat {
    if vs == [] then 0 else CountOf(vs[..|vs| - 1], v) + if vs[|vs| - 1] == v then 1 else 0
  }

  function CountHidden(vs: seq<string>, row: Option<FacetSettings>): nat {
    if vs == [] then 0 else CountHidden(vs[..|vs| - 1], row) + if Hides(row, vs[|vs| - 1]) then 1 else 0
  }

  /** The counts dict. */
  function Counts(vs: seq<string>): map<string, nat> {
    map v | v in vs :: CountOf(vs, v)
  }

  function Get(m: map<string, nat>, v: string): nat {
    if v in m then m[v] else 0
  }

  function Add(a: map<string, nat>, b: map<string, nat>): map<string, nat> {
    map v | v in a.Keys + b.Keys :: Get(a, v) + Get(b, v)
  }

  lemma {:induction false} CountAbsent(vs: seq<string>, v: string)
    requires v !in vs
    ensures CountOf(vs, v) == 0
  {
    if vs != [] {
      CountAbsent(vs[..|vs| - 1], v);
    }
  }

  lemma {:induction false} CountAppend(a: seq<string>, b: seq<string>, v: string)
    ensures CountOf(a + b, v) == CountOf(a, v) + CountOf(b, v)
  {
    if b == [] {
      assert a + b == a;
    } else {
      CountAppend(a, b[..|b| - 1], v);
      assert (a + b)[..|a + b| - 1] == a + b[..|b| - 1];
    }
  }

  lemma {:induction false} HiddenAppend(a: seq<string>, b: seq<string>, row: Option<FacetSettings>)
    ensures CountHidden(a + b, row) == CountHidden(a, row) + CountHidden(b, row)
  {
    if b == [] {
      assert a + b == a;
    } else {
      HiddenAppend(a, b[..|b| - 1], row);
      assert (a + b)[..|a + b| - 1] == a + b[..|b| - 1];
    }
  }

  /** Counting is a homomorphism from concatenation to pointwise sum. */
  lemma CountsAppend(a: seq<string>, b: seq<string>)
    ensures Counts(a + b) == Add(Counts(a), Counts(b))
  {
    assert (set v | v in a + b) == (set v | v in a) + (set v | v in b);
    forall v | v in a + b ensures CountOf(a + b, v) == Get(Counts(a), v) + Get(Counts(b), v) {
      CountAppend(a, b, v);
      if v !in a {
        CountAbsent(a, v);
      }
      if v !in b {
        CountAbsent(b, v);
      }
    }
  }

  // ----- rendering a dict as a sorted list -----

  /** `values` lists exactly the items of `m`, by ascending value, with their states. */
  ghost predicate Shows(values: seq<Entry>, m: map<string, nat>, row: Option<FacetSettings>) {
    && (forall i, j :: 0 <= i < j < |values| ==> Strings.Lt(values[i].value, values[j].value))
    && (forall e :: e in values ==> e.value in m && e.count == m[e.value] && e.state == StateOf(row, e.value))
    && (forall v :: v in m ==> exists e :: e in values && e.value == v)
  }

  ghost predicate DistinctStrings(keys: seq<string>) {
    forall i, j :: 0 <= i < j < |keys| ==> keys[i] != keys[j]
  }

  /** The counts and states dicts, keyed alike, as one. */
  function Cells(m: map<string, nat>, row: Option<FacetSettings>): map<string, Entry> {
    map v | v in m :: Entry(v, m[v], StateOf(row, v))
  }

  /** The dicts' sorted items, from their keys in any order. */
  function Render(keys: seq<string>, cells: map<string, Entry>): (r: seq<Entry>)
    requires forall k :: k in keys ==> k in cells
    ensures |r| == |keys|
    ensures var s := Sorting.Sort(keys, Strings.Le);
      forall i :: 0 <= i < |r| ==> s[i] in cells && r[i] == cells[s[i]]
  {
    var s := Sorting.Sort(keys, Strings.Le);
    Sorting.SortMembers(keys, Strings.Le);
    assert forall i :: 0 <= i < |s| ==> s[i] in keys;
    seq(|s|, (i: int) requires 0 <= i < |s| => cells[s[i]])
  }

  lemma LePreorder()
    ensures Sorting.Preorder(Strings.Le)
  {
    forall a, b ensures Strings.Le(a, b) || Strings.Le(b, a) {
      Strings.LeTotal(a, b);
    }
    forall a, b, c | Strings.Le(a, b) && Strings.Le(b, c) ensures Strings.Le(a, c) {
      Strings.LeTransitive(a, b, c);
    }
  }

  function Self(v: string): string { v }

  /** Rendering sorts: the values come out in strictly ascending order. */
  lemma RenderAscends(keys: seq<string>, cells: map<string, Entry>)
    requires DistinctStrings(keys) && forall k :: k in keys ==> k in cells && cells[k].value == k
    ensures var r := Render(keys, cells); forall i, j :: 0 <= i < j < |r| ==> Strings.Lt(r[i].value, r[j].value)
  {
    hide Sorting.Sort, Strings.Le, Render, Sorting.Preorder;
    var s, r := Sorting.Sort(keys, Strings.Le), Render(keys, cells);
    LePreorder();
    Sorting.SortSorted(keys, Strings.Le);
    Sorting.SortMembers(keys, Strings.Le);
    Sorting.PermutationDistinct(keys, s, Self);
    forall i, j | 0 <= i < j < |r| ensures Strings.Lt(r[i].value, r[j].value) {
      assert s[i] in keys && s[j] in keys;
      assert Self(s[i]) != Self(s[j]) && Strings.Le(s[i], s[j]);
    }
  }

  lemma RenderMembers(keys: seq<string>, cells: map<string, Entry>)
    requires forall k :: k in keys ==> k in cells
    ensures var r := Render(keys, cells); forall e :: e in r ==> exists k :: k in keys && e == cells[k]
    ensures var r := Render(keys, cells); forall k :: k in keys ==> cells[k] in r
  {
    hide Sorting.Sort, Strings.Le, Render;
    var s, r := Sorting.Sort(keys, Strings.Le), Render(keys, cells);
    Sorting.SortMembers(keys, Strings.Le);
    forall e | e in r ensures exists k :: k in keys && e == cells[k] {
      var i :| 0 <= i < |r| && r[i] == e;
      assert s[i] in keys;
    }
    forall k | k in keys ensures cells[k] in r {
      assert k in s;
      var i :| 0 <= i < |s| && s[i] == k;
      assert r[i] in r;
    }
  }

  lemma RenderShows(keys: seq<string>, m: map<string, nat>, row: Option<FacetSettings>)
    requires DistinctStrings(keys) && forall k :: k in keys <==> k in m
    ensures Shows(Render(keys, Cells(m, row)), m, row)
  {
    hide Sorting.Sort, Strings.Le, Strings.Lt, Render, StateOf;
    var cells := Cells(m, row);
    RenderAscends(keys, cells);
    RenderMembers(keys, cells);
    forall v | v in m ensures exists e :: e in Render(keys, cells) && e.value == v {
      assert cells[v] in Render(keys, cells);
    }
  }

  /** A dict has one rendering. */
  lemma ShowsUnique(a: seq<Entry>, b: seq<Entry>, m: map<string, nat>, row: Option<FacetSettings>)
    requires Shows(a, m, row) && Shows(b, m, row)
    ensures a == b
  {
    forall e | e in a ensures e in b {
      var f :| f in b && f.value == e.value;
    }
    forall e | e in b ensures e in a {
      var f :| f in a && f.value == e.value;
    }
    SortedByValueUnique(a, b);
  }

  lemma {:induction false} SortedByValueUnique(a: seq<Entry>, b: seq<Entry>)
    requires forall i, j :: 0 <= i < j < |a| ==> Strings.Lt(a[i].value, a[j].value)
    requires forall i, j :: 0 <= i < j < |b| ==> Strings.Lt(b[i].value, b[j].value)
    requires forall e :: e in a <==> e in b
    ensures a == b
  {
    if a == [] {
      Sorting.HeadIsMember(b);
    } else {
      assert a[0] in b && a[0] in a;
      assert b[0] in a;
      var i :| 0 <= i < |b| && b[i] == a[0];
      var j :| 0 <= j < |a| && a[j] == b[0];
      if i > 0 && j > 0 {
        Strings.LtAsymmetric(a[0].value, b[0].value);
      }
      TailMembers(a);
      TailMembers(b);
      SortedByValueUnique(a[1..], b[1..]);
    }
  }

  lemma TailMembers(a: seq<Entry>)
    requires a != [] && forall i, j :: 0 <= i < j < |a| ==> Strings.Lt(a[i].value, a[j].value)
    ensures forall e :: e in a[1..] <==> e in a && e != a[0]
    ensures a == [a[0]] + a[1..]
  {
    forall e | e in a && e != a[0] ensures e in a[1..] {
      var i :| 0 <= i < |a| && a[i] == e;
      assert a[1..][i - 1] == e;
    }
  }

  // ----- payloads -----

  function ValuesOf<C>(contexts: seq<C>, valueOf: C -> string): (r: seq<string>)
    ensures |r| == |contexts| && forall i :: 0 <= i < |r| ==> r[i] == valueOf(contexts[i])
  {
    seq(|contexts|, (i: int) requires 0 <= i < |contexts| => valueOf(contexts[i]))
  }

  /** `p` is the payload of this facet over contexts with these values. */
  ghost predicate IsPayload<C>(p: Payload, fd: FacetDefinition<C>, vs: seq<string>, row: Option<FacetSettings>) {
    if !fd.available then p == Payload(fd.id, false, [], 0, [], [])
    else
      && p.id == fd.id && p.available && p.included == Included(row) && p.excluded == Excluded(row)
      && Shows(p.values, Counts(vs), row) && p.excludedCount == CountHidden(vs, row)
  }

  lemma PayloadUnique<C>(p: Payload, q: Payload, fd: FacetDefinition<C>, vs: seq<string>, row: Option<FacetSettings>)
    requires IsPayload(p, fd, vs, row) && IsPayload(q, fd, vs, row)
    ensures p == q
  {
    if fd.available {
      ShowsUnique(p.values, q.values, Counts(vs), row);
    }
  }

  /** A dict under construction: its items and their insertion order. */
  ghost predicate IsDict<V>(keys: seq<string>, m: map<string, V>) {
    DistinctStrings(keys) && forall k :: k in keys <==> k in m
  }

  lemma DictInsert<V>(keys: seq<string>, m: map<string, V>, v: string, n: V)
    requires IsDict(keys, m)
    ensures IsDict(if v in m then keys else keys + [v], m[v := n])
  {
  }

  lemma CountsSnoc(vs: seq<string>, v: string)
    ensures Counts(vs + [v]) == Counts(vs)[v := Get(Counts(vs), v) + 1]
    ensures forall row :: CountHidden(vs + [v], row) == CountHidden(vs, row) + if Hides(row, v) then 1 else 0
  {
    assert (vs + [v])[..|vs|] == vs;
    forall u | u in vs + [v] ensures CountOf(vs + [v], u) == Get(Counts(vs), u) + if u == v then 1 else 0 {
      if u !in vs {
        CountAbsent(vs, u);
      }
    }
  }

  lemma CountsStart(vs: seq<string>, row: Option<FacetSettings>)
    ensures Counts(vs[..0]) == map[] && CountHidden(vs[..0], row) == 0 && vs[..|vs|] == vs
  {
  }

  lemma CountsPrefix(vs: seq<string>, i: nat, row: Option<FacetSettings>)
    requires i < |vs|
    ensures Counts(vs[..i + 1]) == Counts(vs[..i])[vs[i] := Get(Counts(vs[..i]), vs[i]) + 1]
    ensures CountHidden(vs[..i + 1], row) == CountHidden(vs[..i], row) + if Hides(row, vs[i]) then 1 else 0
  {
    CountsSnoc(vs[..i], vs[i]);
    assert vs[..i + 1] == vs[..i] + [vs[i]];
  }

  /** One facet's turn of api/facets.py:231-277. */
  method FacetPayload<C>(fd: FacetDefinition<C>, contexts: seq<C>, row: Option<FacetSettings>) returns (p: Payload)
    ensures IsPayload(p, fd, ValuesOf(contexts, fd.valueOf), row)
  {
    hide Counts, CountHidden, CountOf, Hides, Shows, Render;
    if !fd.available { return Payload(fd.id, false, [], 0, [], []); }
    ghost var vs := ValuesOf(contexts, fd.valueOf);
    CountsStart(vs, row);
    var keys: seq<string>, counts: map<string, nat>, hidden := [], map[], 0;
    for i := 0 to |contexts|
      invariant IsDict(keys, counts) && counts == Counts(vs[..i]) && hidden == CountHidden(vs[..i], row)
    {
      var v := fd.valueOf(contexts[i]);
      CountsPrefix(vs, i, row);
      DictInsert(keys, counts, v, Get(counts, v) + 1);
      keys := if v in counts then keys else keys + [v];
      counts := counts[v := Get(counts, v) + 1];
      if Hides(row, v) {
        hidden := hidden + 1;
      }
    }
    RenderShows(keys, counts, row);
    p := Payload(fd.id, true, Render(keys, Cells(counts, row)), hidden, Included(row), Excluded(row));
  }

  /** `{item["value"]: item}`: the comprehensions at the head of `_merge_facet_payloads`. */
  function ByValue(values: seq<Entry>): map<string, Entry> {
    if values == [] then map[]
    else ByValue(values[..|values| - 1])[values[|values| - 1].value := values[|values| - 1]]
  }

  /** One turn of the merge loop: counts add up, the newer state wins. */
  function Put(m: map<string, Entry>, e: Entry): map<string, Entry> {
    m[e.value := Entry(e.value, (if e.value in m then m[e.value].count else 0) + e.count, e.state)]
  }

  function PutAll(m: map<string, Entry>, values: seq<Entry>): map<string, Entry> {
    if values == [] then m else Put(PutAll(m, values[..|values| - 1]), values[|values| - 1])
  }

  function EntryFor(values: seq<Entry>, v: string): Option<Entry> {
    if values == [] then None
    else if values[|values| - 1].value == v then Some(values[|values| - 1])
    else EntryFor(values[..|values| - 1], v)
  }

  lemma {:induction false} EntryForMember(values: seq<Entry>, v: string)
    ensures EntryFor(values, v).Some? ==> EntryFor(values, v).value in values && EntryFor(values, v).value.value == v
    ensures EntryFor(values, v).None? ==> forall e :: e in values ==> e.value != v
  {
    if values != [] {
      EntryForMember(values[..|values| - 1], v);
    }
  }

  lemma {:induction false} ByValueLookup(values: seq<Entry>, v: string)
    ensures v in ByValue(values) <==> EntryFor(values, v).Some?
    ensures v in ByValue(values) ==> ByValue(values)[v] == EntryFor(values, v).value
  {
    if values != [] {
      ByValueLookup(values[..|values| - 1], v);
    }
  }

  ghost predicate DistinctValues(values: seq<Entry>) {
    forall i, j :: 0 <= i < j < |values| ==> values[i].value != values[j].value
  }

  /** What the merge loop leaves at each value. */
  lemma {:induction false} PutAllLookup(m: map<string, Entry>, values: seq<Entry>, v: string)
    requires DistinctValues(values)
    ensures v in PutAll(m, values) <==> v in m || EntryFor(values, v).Some?
    ensures EntryFor(values, v).None? && v in m ==> PutAll(m, values)[v] == m[v]
    ensures EntryFor(values, v).Some? ==>
      var e := EntryFor(values, v).value;
      PutAll(m, values)[v] == Entry(v, (if v in m then m[v].count else 0) + e.count, e.state)
  {
    if values != [] {
      var n := |values| - 1;
      var init := values[..n];
      assert forall i :: 0 <= i < n ==> init[i] == values[i];
      PutAllLookup(m, init, v);
      if values[n].value == v {
        EntryForMember(init, v);
        assert EntryFor(init, v).None? by {
          forall e | e in init ensures e.value != v {
            var i :| 0 <= i < n && init[i] == e;
          }
        }
      }
    }
  }

  lemma ShownEntry(values: seq<Entry>, vs: seq<string>, row: Option<FacetSettings>, v: string)
    requires Shows(values, Counts(vs), row)
    ensures EntryFor(values, v) == if v in vs then Some(Entry(v, CountOf(vs, v), StateOf(row, v))) else None
  {
    EntryForMember(values, v);
    if v in vs {
      assert v in Counts(vs);
      var e :| e in values && e.value == v;
    }
  }

  /** Merging two rendered lists gives the cells of the concatenation. */
  lemma MergedCells(xs: seq<Entry>, ys: seq<Entry>, a: seq<string>, b: seq<string>, row: Option<FacetSettings>)
    requires Shows(xs, Counts(a), row) && Shows(ys, Counts(b), row)
    ensures PutAll(ByValue(xs), ys) == Cells(Counts(a + b), row)
  {
    var cells := PutAll(ByValue(xs), ys);
    assert DistinctValues(ys);
    forall v ensures v in cells <==> v in a + b
      ensures v in cells ==> cells[v] == Entry(v, CountOf(a + b, v), StateOf(row, v))
    {
      PutAllLookup(ByValue(xs), ys, v);
      ByValueLookup(xs, v);
      ShownEntry(xs, a, row, v);
      ShownEntry(ys, b, row, v);
      CountAppend(a, b, v);
      if v !in a {
        CountAbsent(a, v);
      }
      if v !in b {
        CountAbsent(b, v);
      }
    }
  }

  lemma ByValuePrefix(values: seq<Entry>, i: nat)
    requires i < |values|
    ensures ByValue(values[..i + 1]) == ByValue(values[..i])[values[i].value := values[i]]
  {
    assert values[..i + 1][..i] == values[..i];
  }

  lemma PutAllPrefix(m: map<string, Entry>, values: seq<Entry>, i: nat)
    requires i < |values|
    ensures PutAll(m, values[..i + 1]) == Put(PutAll(m, values[..i]), values[i])
  {
    assert values[..i + 1][..i] == values[..i];
  }

  /** api/routes_api.py:418-419. */
  method ReadCells(values: seq<Entry>) returns (keys: seq<string>, cells: map<string, Entry>)
    ensures IsDict(keys, cells) && cells == ByValue(values)
  {
    keys, cells := [], map[];
    for i := 0 to |values|
      invariant IsDict(keys, cells) && cells == ByValue(values[..i])
    {
      var e := values[i];
      ByValuePrefix(values, i);
      DictInsert(keys, cells, e.value, e);
      keys := if e.value in cells then keys else keys + [e.value];
      cells := cells[e.value := e];
    }
    assert values[..|values|] == values;
  }

  /** api/routes_api.py:416-426 for one facet: whatever was counted separately, the merged
      payload is the payload of the concatenation. */
  method MergePayload<C>(target: Payload, source: Payload, ghost fd: FacetDefinition<C>,
                         ghost row: Option<FacetSettings>, ghost a: seq<string>, ghost b: seq<string>)
      returns (p: Payload)
    ensures IsPayload(target, fd, a, row) && IsPayload(source, fd, b, row) ==> IsPayload(p, fd, a + b, row)
  {
    var keys, cells := ReadCells(target.values);
    for i := 0 to |source.values|
      invariant IsDict(keys, cells) && cells == PutAll(ByValue(target.values), source.values[..i])
    {
      var e := source.values[i];
      PutAllPrefix(ByValue(target.values), source.values, i);
      ghost var after := Put(cells, e);
      DictInsert(keys, cells, e.value, after[e.value]);
      keys := if e.value in cells then keys else keys + [e.value];
      cells := Put(cells, e);
    }
    assert source.values[..|source.values|] == source.values;
    p := target.(excludedCount := target.excludedCount + source.excludedCount, values := Render(keys, cells));
    MergeCorrect(target, source, p, keys, cells, fd, row, a, b);
  }

  lemma MergeCorrect<C>(target: Payload, source: Payload, p: Payload, keys: seq<string>, cells: map<string, Entry>,
                        fd: FacetDefinition<C>, row: Option<FacetSettings>, a: seq<string>, b: seq<string>)
    requires IsDict(keys, cells) && cells == PutAll(ByValue(target.values), source.values)
    requires p == target.(excludedCount := target.excludedCount + source.excludedCount, values := Render(keys, cells))
    ensures IsPayload(target, fd, a, row) && IsPayload(source, fd, b, row) ==> IsPayload(p, fd, a + b, row)
  {
    if IsPayload(target, fd, a, row) && IsPayload(source, fd, b, row) {
      if fd.available {
        MergedCells(target.values, source.values, a, b, row);
        RenderShows(keys, Counts(a + b), row);
        HiddenAppend(a, b, row);
      } else {
        Sorting.HeadIsMember(keys);
      }
    }
  }

  // ----- totals -----

  /** The counts of the listed values that satisfy `p`, added up. */
  function TotalWhere(values: seq<Entry>, p: string -> bool): nat {
    if values == [] then 0
    else (if p(values[0].value) then values[0].count else 0) + TotalWhere(values[1..], p)
  }

  function KeyTotal(keys: seq<string>, vs: seq<string>, p: string -> bool): nat {
    if keys == [] then 0 else (if p(keys[0]) then CountOf(vs, keys[0]) else 0) + KeyTotal(keys[1..], vs, p)
  }

  function CountWhere(vs: seq<string>, p: string -> bool): nat {
    if vs == [] then 0 else CountWhere(vs[..|vs| - 1], p) + if p(vs[|vs| - 1]) then 1 else 0
  }

  lemma {:induction false} KeyTotalSnoc(keys: seq<string>, vs: seq<string>, v: string, p: string -> bool)
    ensures KeyTotal(keys, vs + [v], p) == KeyTotal(keys, vs, p) + if p(v) then Multiplicity(keys, v) else 0
  {
    if keys != [] {
      KeyTotalSnoc(keys[1..], vs, v, p);
      assert (vs + [v])[..|vs|] == vs;
    }
  }

  function Multiplicity(keys: seq<string>, v: string): nat {
    if keys == [] then 0 else (if keys[0] == v then 1 else 0) + Multiplicity(keys[1..], v)
  }

  lemma {:induction false} MultiplicityOne(keys: seq<string>, v: string)
    requires DistinctStrings(keys)
    ensures Multiplicity(keys, v) == if v in keys then 1 else 0
  {
    if keys != [] {
      MultiplicityOne(keys[1..], v);
    }
  }

  lemma {:induction false} KeyTotalCounts(keys: seq<string>, vs: seq<string>, p: string -> bool)
    requires DistinctStrings(keys) && forall v :: v in vs ==> v in keys
    ensures KeyTotal(keys, vs, p) == CountWhere(vs, p)
  {
    if vs == [] {
      KeyTotalEmpty(keys, p);
    } else {
      var n := |vs| - 1;
      assert vs == vs[..n] + [vs[n]];
      KeyTotalCounts(keys, vs[..n], p);
      KeyTotalSnoc(keys, vs[..n], vs[n], p);
      MultiplicityOne(keys, vs[n]);
    }
  }

  lemma {:induction false} KeyTotalEmpty(keys: seq<string>, p: string -> bool)
    ensures KeyTotal(keys, [], p) == 0
  {
    if keys != [] {
      KeyTotalEmpty(keys[1..], p);
    }
  }

  function Names(values: seq<Entry>): (r: seq<string>)
    ensures |r| == |values| && forall i :: 0 <= i < |r| ==> r[i] == values[i].value
  {
    seq(|values|, (i: int) requires 0 <= i < |values| => values[i].value)
  }

  lemma {:induction false} TotalByName(values: seq<Entry>, vs: seq<string>, p: string -> bool)
    requires forall i :: 0 <= i < |values| ==> values[i].count == CountOf(vs, values[i].value)
    ensures TotalWhere(values, p) == KeyTotal(Names(values), vs, p)
  {
    if values != [] {
      TotalByName(values[1..], vs, p);
      assert Names(values)[1..] == Names(values[1..]);
    }
  }

  function Anything(): string -> bool { (v: string) => true }
  function HiddenBy(row: Option<FacetSettings>): string -> bool { (v: string) => Hides(row, v) }

  lemma {:induction false} CountEverything(vs: seq<string>)
    ensures CountWhere(vs, Anything()) == |vs|
  {
    if vs != [] {
      CountEverything(vs[..|vs| - 1]);
    }
  }

  lemma {:induction false} CountHiddenWhere(vs: seq<string>, row: Option<FacetSettings>)
    ensures CountWhere(vs, HiddenBy(row)) == CountHidden(vs, row)
  {
    if vs != [] {
      CountHiddenWhere(vs[..|vs| - 1], row);
    }
  }

  /** In every payload the counts add up to the number of contexts, and `excluded_count` to the
      counts of the values the selection hides. */
  lemma PayloadTotals<C>(p: Payload, fd: FacetDefinition<C>, vs: seq<string>, row: Option<FacetSettings>)
    requires IsPayload(p, fd, vs, row) && fd.available
    ensures TotalWhere(p.values, Anything()) == |vs|
    ensures TotalWhere(p.values, HiddenBy(row)) == p.excludedCount
  {
    var keys := Names(p.values);
    forall i | 0 <= i < |p.values| ensures p.values[i].count == CountOf(vs, p.values[i].value) {
      assert p.values[i] in p.values;
    }
    forall v | v in vs ensures v in keys {
      assert v in Counts(vs);
      var e :| e in p.values && e.value == v;
      var i :| 0 <= i < |p.values| && p.values[i] == e;
      assert keys[i] == v;
    }
    TotalByName(p.values, vs, Anything());
    TotalByName(p.values, vs, HiddenBy(row));
    KeyTotalCounts(keys, vs, Anything());
    KeyTotalCounts(keys, vs, HiddenBy(row));
    CountEverything(vs);
    CountHiddenWhere(vs, row);
  }

  // ----- batches -----

  const BATCH_SIZE := 5000

  function Select<C>(table: seq<C>, p: C -> bool): seq<C> {
    if table == [] then [] else (if p(table[0]) then [table[0]] else []) + Select(table[1..], p)
  }

  lemma {:induction false} SelectAppend<C>(a: seq<C>, b: seq<C>, p: C -> bool)
    ensures Select(a + b, p) == Select(a, p) + Select(b, p)
  {
    if a == [] {
      assert a + b == b;
    } else {
      SelectAppend(a[1..], b, p);
      Sorting.TailOfAppend(a, b);
      Sorting.Associative(if p(a[0]) then [a[0]] else [], Select(a[1..], p), Select(b, p));
    }
  }

  function SettingsOf(settings: map<string, FacetSettings>, id: string): Option<FacetSettings> {
    if id in settings then Some(settings[id]) else None
  }

  /** One payload per facet, over these contexts. */
  ghost predicate ArePayloads<C>(ps: seq<Payload>, defs: seq<FacetDefinition<C>>, contexts: seq<C>,
                                 settings: map<string, FacetSettings>)
  {
    |ps| == |defs| && forall d :: 0 <= d < |defs| ==>
      IsPayload(ps[d], defs[d], ValuesOf(contexts, defs[d].valueOf), SettingsOf(settings, defs[d].id))
  }

  /** api/facets.py:214-278. */
  method FacetPayloads<C>(defs: seq<FacetDefinition<C>>, contexts: seq<C>, settings: map<string, FacetSettings>)
      returns (ps: seq<Payload>)
    ensures ArePayloads(ps, defs, contexts, settings)
  {
    hide IsPayload;
    ps := [];
    for d := 0 to |defs|
      invariant ArePayloads(ps, defs[..d], contexts, settings)
    {
      var p := FacetPayload(defs[d], contexts, SettingsOf(settings, defs[d].id));
      ps := ps + [p];
    }
    assert defs[..|defs|] == defs;
  }

  /** api/routes_api.py:415-426: the aggregate is updated in place. */
  method MergeFacetPayloads<C>(aggregate: array<Payload>, partial: seq<Payload>, ghost defs: seq<FacetDefinition<C>>,
                               ghost a: seq<C>, ghost b: seq<C>, ghost settings: map<string, FacetSettings>)
    requires ArePayloads(aggregate[..], defs, a, settings) && ArePayloads(partial, defs, b, settings)
    modifies aggregate
    ensures ArePayloads(aggregate[..], defs, a + b, settings)
  {
    hide IsPayload;
    for d := 0 to aggregate.Length
      invariant forall i :: d <= i < aggregate.Length ==>
        IsPayload(aggregate[i], defs[i], ValuesOf(a, defs[i].valueOf), SettingsOf(settings, defs[i].id))
      invariant forall i :: 0 <= i < d ==>
        IsPayload(aggregate[i], defs[i], ValuesOf(a + b, defs[i].valueOf), SettingsOf(settings, defs[i].id))
    {
      ghost var f := defs[d].valueOf;
      ghost var row := SettingsOf(settings, defs[d].id);
      var p := MergePayload(aggregate[d], partial[d], defs[d], row, ValuesOf(a, f), ValuesOf(b, f));
      assert ValuesOf(a, f) + ValuesOf(b, f) == ValuesOf(a + b, f);
      aggregate[d] := p;
    }
  }

  /** Rows with the clock reading of the batch they are read in. */
  function Stamped<R>(table: seq<R>, size: nat, clock: nat -> int): (r: seq<(R, int)>)
    requires size > 0
    ensures |r| == |table| && forall p :: 0 <= p < |r| ==> r[p] == (table[p], clock(p / size))
  {
    seq(|table|, (p: int) requires 0 <= p < |table| => (table[p], clock(p / size)))
  }

  /** Rows all read at one instant. */
  function At<R>(rows: seq<R>, now: int): (r: seq<(R, int)>)
    ensures |r| == |rows| && forall p :: 0 <= p < |r| ==> r[p] == (rows[p], now)
  {
    seq(|rows|, (p: int) requires 0 <= p < |rows| => (rows[p], now))
  }

  lemma Quotient(p: nat, b: nat, size: nat)
    requires size > 0 && b * size <= p < b * size + size
    ensures p / size == b
  {
    var q := p / size;
    assert q * size <= p < q * size + size;
    Multiples(q, b, size);
    Multiples(b, q, size);
  }

  lemma Multiples(x: nat, y: nat, size: nat)
    ensures x < y ==> x * size + size <= y * size
  {
    if x < y {
      var d := y - x - 1;
      assert d * size >= 0;
      assert y * size == (x + 1 + d) * size == x * size + size + d * size;
    }
  }

  lemma BatchIsStamped<R>(table: seq<R>, size: nat, clock: nat -> int, b: nat, offset: nat, end: nat)
    requires size > 0 && offset == b * size && offset <= end <= |table| && end <= offset + size
    ensures At(table[offset..end], clock(b)) == Stamped(table, size, clock)[offset..end]
  {
    forall i | 0 <= i < end - offset
      ensures At(table[offset..end], clock(b))[i] == Stamped(table, size, clock)[offset..end][i]
    {
      Quotient(offset + i, b, size);
    }
  }

  /** api/routes_api.py:978-985 over api/routes_api.py:167-176: however the table is cut into
      batches, and whatever the clock shows at each, the aggregate is the single-pass payload of
      every visible row as it was read. */
  method ListFacets<R>(defs: seq<FacetDefinition<(R, int)>>, table: seq<R>, visible: ((R, int)) -> bool,
                       settings: map<string, FacetSettings>, batchSize: nat, clock: nat -> int)
      returns (result: seq<Payload>)
    ensures ArePayloads(result, defs, Select(Stamped(table, BatchSize(batchSize), clock), visible), settings)
  {
    hide IsPayload, ArePayloads;
    var size := BatchSize(batchSize);
    ghost var rows := Stamped(table, size, clock);
    var start := FacetPayloads(defs, [], settings);
    var aggregate := new Payload[|start|](i requires 0 <= i < |start| => start[i]);
    assert aggregate[..] == start;
    var offset, b := 0, 0;
    assert Select(rows[..0], visible) == [];
    while offset < |table|
      invariant 0 <= offset <= |table| && b >= 0 && (offset < |table| ==> offset == b * size)
      invariant ArePayloads(aggregate[..], defs, Select(rows[..offset], visible), settings)
    {
      var end := if offset + size < |table| then offset + size else |table|;
      BatchIsStamped(table, size, clock, b, offset, end);
      var contexts := At(table[offset..end], clock(b));
      var shown := Select(contexts, visible);
      var partial := FacetPayloads(defs, shown, settings);
      MergeFacetPayloads(aggregate, partial, defs, Select(rows[..offset], visible), shown, settings);
      SelectAppend(rows[..offset], contexts, visible);
      assert rows[..end] == rows[..offset] + contexts;
      assert (b + 1) * size == b * size + size;
      offset, b := end, b + 1;
    }
    assert rows[..offset] == rows;
    result := aggregate[..];
  }

  function BatchSize(requested: nat): (size: nat)
    ensures size > 0
  {
    if requested == 0 then BATCH_SIZE else requested
  }

  /** No row's value or visibility depends on which of the clock readings it is read at. */
  ghost predicate Steady<R(!new)>(defs: seq<FacetDefinition<(R, int)>>, visible: ((R, int)) -> bool,
                                  clock: nat -> int, now: int) {
    && (forall r: R, b: nat :: visible((r, clock(b))) == visible((r, now)))
    && (forall d, r: R, b: nat :: 0 <= d < |defs| ==> defs[d].valueOf((r, clock(b))) == defs[d].valueOf((r, now)))
  }

  /** Two readings of the same rows that every facet sees alike. */
  ghost predicate ReadAlike<R>(a: seq<(R, int)>, b: seq<(R, int)>, visible: ((R, int)) -> bool,
                               f: ((R, int)) -> string) {
    |a| == |b| && forall p :: 0 <= p < |a| ==> visible(a[p]) == visible(b[p]) && f(a[p]) == f(b[p])
  }

  lemma {:induction false} ReadAlikeValues<R>(a: seq<(R, int)>, b: seq<(R, int)>, visible: ((R, int)) -> bool,
                                              f: ((R, int)) -> string)
    requires ReadAlike(a, b, visible, f)
    ensures ValuesOf(Select(a, visible), f) == ValuesOf(Select(b, visible), f)
  {
    if a != [] {
      ReadAlikeValues(a[1..], b[1..], visible, f);
      ValuesCons(a, visible, f);
      ValuesCons(b, visible, f);
    }
  }

  lemma ValuesCons<C>(s: seq<C>, p: C -> bool, f: C -> string)
    requires s != []
    ensures ValuesOf(Select(s, p), f) == (if p(s[0]) then [f(s[0])] else []) + ValuesOf(Select(s[1..], p), f)
  {
  }

  /** While the clock crosses no bucket boundary, any batching is one pass at one instant. */
  lemma SteadyClock<R(!new)>(ps: seq<Payload>, defs: seq<FacetDefinition<(R, int)>>, table: seq<R>,
                             visible: ((R, int)) -> bool,
                             settings: map<string, FacetSettings>, size: nat, clock: nat -> int, now: int)
    requires size > 0 && Steady(defs, visible, clock, now)
    requires ArePayloads(ps, defs, Select(Stamped(table, size, clock), visible), settings)
    ensures ArePayloads(ps, defs, Select(At(table, now), visible), settings)
  {
    hide IsPayload, Select;
    var a, b := Stamped(table, size, clock), At(table, now);
    forall d | 0 <= d < |defs|
      ensures ValuesOf(Select(a, visible), defs[d].valueOf) == ValuesOf(Select(b, visible), defs[d].valueOf)
    {
      var f := defs[d].valueOf;
      forall p | 0 <= p < |a| ensures visible(a[p]) == visible(b[p]) && f(a[p]) == f(b[p]) {
        var k: nat := p / size;
        assert a[p] == (table[p], clock(k)) && b[p] == (table[p], now);
        assert visible((table[p], clock(k))) == visible((table[p], now));
        assert defs[d].valueOf((table[p], clock(k))) == defs[d].valueOf((table[p], now));
      }
      ReadAlikeValues(a, b, visible, f);
    }
  }

  /** A single pass and any batching return the same payloads. */
  lemma BatchingAgrees<C>(ps: seq<Payload>, qs: seq<Payload>, defs: seq<FacetDefinition<C>>, contexts: seq<C>,
                          settings: map<string, FacetSettings>)
    requires ArePayloads(ps, defs, contexts, settings) && ArePayloads(qs, defs, contexts, settings)
    ensures ps == qs
  {
    forall d | 0 <= d < |defs| ensures ps[d] == qs[d] {
      PayloadUnique(ps[d], qs[d], defs[d], ValuesOf(contexts, defs[d].valueOf), SettingsOf(settings, defs[d].id));
    }
  }
}
