/** matching/recommendation_engine.py:19-92: learned affinities and the affinity score, over
    exact reals. String fields are already stripped and case-folded; empty means absent. */
module Behavior {
  import Sorting

  datatype Signal = Signal(role: string, source: string, feedback: string, action: string, opportunity: string)

  datatype Profile = Profile(roles: map<string, real>, sources: map<string, real>)

  /** What one interaction is worth. */
  function Worth(s: Signal): real {
    if s.feedback == "good_match" then 20.0
    else if s.feedback in {"bad_match", "irrelevant_role"} then -24.0
    else if s.action in {"applied", "submitted"} then 12.0
    else 0.0
  }

  function RoleOf(s: Signal): string { s.role }
  function SourceOf(s: Signal): string { s.source }

  /** Whether a signal is evidence about `key`. */
  predicate Bears(s: Signal, dim: Signal -> string, key: string, exclude: string) {
    Worth(s) != 0.0 && key != "" && dim(s) == key && !(exclude != "" && s.opportunity == exclude)
  }

  function Hit(s: Signal, dim: Signal -> string, key: string, exclude: string): nat {
    if Bears(s, dim, key, exclude) then 1 else 0
  }

  function Gain(s: Signal, dim: Signal -> string, key: string, exclude: string, weight: real): real {
    if Bears(s, dim, key, exclude) then Worth(s) * weight else 0.0
  }

  function Evidence(signals: seq<Signal>, dim: Signal -> string, key: string, exclude: string): nat {
    if signals == [] then 0
    else Evidence(signals[..|signals| - 1], dim, key, exclude)
         + Hit(signals[|signals| - 1], dim, key, exclude)
  }

  function TotalWorth(signals: seq<Signal>, dim: Signal -> string, key: string, exclude: string, weight: real): real {
    if signals == [] then 0.0
    else TotalWorth(signals[..|signals| - 1], dim, key, exclude, weight)
         + Gain(signals[|signals| - 1], dim, key, exclude, weight)
  }

  function Clamp(x: real, lo: real, hi: real): real {
    if x > hi then (if hi < lo then lo else hi) else if x < lo then lo else x
  }

  /** The affinity a key has earned, shrunk towards neutral. */
  function Affinity(signals: seq<Signal>, dim: Signal -> string, key: string, exclude: string, weight: real): real {
    TotalWorth(signals, dim, key, exclude, weight) / (Evidence(signals, dim, key, exclude) + 1) as real
  }

  function Keys(signals: seq<Signal>, dim: Signal -> string, exclude: string): set<string> {
    set s | s in signals && Bears(s, dim, dim(s), exclude) :: dim(s)
  }

  /** The affinities, one per key with any evidence. */
  function Affinities(signals: seq<Signal>, dim: Signal -> string, exclude: string, weight: real): map<string, real> {
    map k | k in Keys(signals, dim, exclude) :: Affinity(signals, dim, k, exclude, weight)
  }

  /** `n` signals cannot add up to more than `n` times the extreme worths. */
  predicate Within(total: real, n: nat, weight: real) {
    -24.0 * weight * n as real <= total <= 20.0 * weight * n as real
  }

  lemma WithinStep(total: real, n: nat, s: Signal, dim: Signal -> string, key: string, exclude: string, weight: real)
    requires weight > 0.0 && Within(total, n, weight)
    ensures Within(total + Gain(s, dim, key, exclude, weight), n + Hit(s, dim, key, exclude), weight)
  {
    assert -24.0 * weight <= Worth(s) * weight <= 20.0 * weight;
    var x := n as real;
    assert -24.0 * weight * (x + 1.0) == -24.0 * weight * x + -24.0 * weight;
    assert 20.0 * weight * (x + 1.0) == 20.0 * weight * x + 20.0 * weight;
  }

  lemma {:induction false} WorthBounds(signals: seq<Signal>, dim: Signal -> string, key: string, exclude: string,
                                       weight: real)
    requires weight > 0.0
    ensures Within(TotalWorth(signals, dim, key, exclude, weight), Evidence(signals, dim, key, exclude), weight)
  {
    if signals != [] {
      hide Gain, Hit, Within;
      var init := signals[..|signals| - 1];
      WorthBounds(init, dim, key, exclude, weight);
      WithinStep(TotalWorth(init, dim, key, exclude, weight), Evidence(init, dim, key, exclude),
                 signals[|signals| - 1], dim, key, exclude, weight);
    }
  }

  lemma Shrinks(total: real, n: real, lo: real, hi: real)
    requires n >= 0.0 && lo < 0.0 < hi && lo * n <= total <= hi * n
    ensures lo < total / (n + 1.0) < hi
  {
    assert total < hi * (n + 1.0) && total > lo * (n + 1.0);
    Below(total / (n + 1.0), hi, n + 1.0);
    Below(lo, total / (n + 1.0), n + 1.0);
  }

  lemma Below(q: real, r: real, d: real)
    requires d > 0.0
    ensures q < r <==> q * d < r * d
  {
    assert (r - q) * d == r * d - q * d;
    if r <= q {
      assert (q - r) * d >= 0.0;
    }
  }

  /** No affinity ever reaches what a single signal is worth, so the +-35 clamp never acts. */
  lemma AffinityStrict(signals: seq<Signal>, dim: Signal -> string, key: string, exclude: string, weight: real)
    requires weight > 0.0
    ensures -24.0 * weight < Affinity(signals, dim, key, exclude, weight) < 20.0 * weight
  {
    WorthBounds(signals, dim, key, exclude, weight);
    Shrinks(TotalWorth(signals, dim, key, exclude, weight), Evidence(signals, dim, key, exclude) as real,
            -24.0 * weight, 20.0 * weight);
  }

  // ----- the loop -----

  function Sum(m: map<string, real>, k: string): real { if k in m then m[k] else 0.0 }
  function Tally(m: map<string, nat>, k: string): nat { if k in m then m[k] else 0 }

  /** The two dicts of one dimension after reading these signals. */
  ghost predicate Tracks(totals: map<string, real>, counts: map<string, nat>, signals: seq<Signal>,
                         dim: Signal -> string, exclude: string, weight: real)
  {
    && totals.Keys == counts.Keys == Keys(signals, dim, exclude)
    && forall k :: k in totals ==>
         totals[k] == TotalWorth(signals, dim, k, exclude, weight) && counts[k] == Evidence(signals, dim, k, exclude)
  }

  lemma {:induction false} NoEvidence(signals: seq<Signal>, dim: Signal -> string, key: string, exclude: string,
                                      weight: real)
    requires key !in Keys(signals, dim, exclude)
    ensures Evidence(signals, dim, key, exclude) == 0 && TotalWorth(signals, dim, key, exclude, weight) == 0.0
  {
    if signals != [] {
      var n := |signals| - 1;
      assert signals[n] in signals;
      forall s | s in signals[..n] && Bears(s, dim, dim(s), exclude) ensures dim(s) in Keys(signals, dim, exclude) {
        assert s in signals;
      }
      NoEvidence(signals[..n], dim, key, exclude, weight);
    }
  }

  lemma KeysSnoc(signals: seq<Signal>, s: Signal, dim: Signal -> string, exclude: string)
    ensures Keys(signals + [s], dim, exclude)
         == Keys(signals, dim, exclude) + if Bears(s, dim, dim(s), exclude) then {dim(s)} else {}
  {
    assert forall x :: x in signals + [s] <==> x in signals || x == s;
  }

  lemma SnocTotals(signals: seq<Signal>, s: Signal, dim: Signal -> string, key: string, exclude: string, weight: real)
    ensures Evidence(signals + [s], dim, key, exclude)
         == Evidence(signals, dim, key, exclude) + Hit(s, dim, key, exclude)
    ensures TotalWorth(signals + [s], dim, key, exclude, weight)
         == TotalWorth(signals, dim, key, exclude, weight) + Gain(s, dim, key, exclude, weight)
  {
    assert (signals + [s])[..|signals|] == signals;
  }

  /** One signal's effect on one dimension's dicts. */
  lemma TracksSnoc(totals: map<string, real>, counts: map<string, nat>, signals: seq<Signal>, s: Signal,
                   dim: Signal -> string, exclude: string, weight: real)
    requires Tracks(totals, counts, signals, dim, exclude, weight)
    ensures Bears(s, dim, dim(s), exclude) ==>
      Tracks(totals[dim(s) := Sum(totals, dim(s)) + Worth(s) * weight], counts[dim(s) := Tally(counts, dim(s)) + 1],
             signals + [s], dim, exclude, weight)
    ensures !Bears(s, dim, dim(s), exclude) ==> Tracks(totals, counts, signals + [s], dim, exclude, weight)
  {
    hide Keys, Worth, TotalWorth, Evidence;
    KeysSnoc(signals, s, dim, exclude);
    if dim(s) !in totals {
      NoEvidence(signals, dim, dim(s), exclude, weight);
    }
    forall k ensures
      Evidence(signals + [s], dim, k, exclude) == Evidence(signals, dim, k, exclude) + Hit(s, dim, k, exclude)
      && TotalWorth(signals + [s], dim, k, exclude, weight)
         == TotalWorth(signals, dim, k, exclude, weight) + Gain(s, dim, k, exclude, weight)
    {
      SnocTotals(signals, s, dim, k, exclude, weight);
    }
  }

  /** The closed form: per role and per source (at a quarter of the worth), the sum of the worths
      over one more than their number. */
  function ProfileOf(signals: seq<Signal>, exclude: string): Profile {
    Profile(Affinities(signals, RoleOf, exclude, 1.0), Affinities(signals, SourceOf, exclude, 0.25))
  }

  /** matching/recommendation_engine.py:45-92. */
  method BuildBehaviorProfile(signals: seq<Signal>, exclude: string) returns (p: Profile)
    ensures p == ProfileOf(signals, exclude)
  {
    hide Evidence, TotalWorth, Keys;
    var roleTotals: map<string, real>, roleCounts: map<string, nat> := map[], map[];
    var sourceTotals: map<string, real>, sourceCounts: map<string, nat> := map[], map[];
    NoKeys(exclude);
    assert signals[..0] == [];
    for i := 0 to |signals|
      invariant Tracks(roleTotals, roleCounts, signals[..i], RoleOf, exclude, 1.0)
      invariant Tracks(sourceTotals, sourceCounts, signals[..i], SourceOf, exclude, 0.25)
    {
      var s := signals[i];
      assert signals[..i + 1] == signals[..i] + [s];
      TracksSnoc(roleTotals, roleCounts, signals[..i], s, RoleOf, exclude, 1.0);
      TracksSnoc(sourceTotals, sourceCounts, signals[..i], s, SourceOf, exclude, 0.25);
      if exclude != "" && s.opportunity == exclude { continue; }
      var value := Worth(s);
      if value == 0.0 { continue; }
      if s.role != "" {
        roleTotals := roleTotals[s.role := Sum(roleTotals, s.role) + value];
        roleCounts := roleCounts[s.role := Tally(roleCounts, s.role) + 1];
      }
      if s.source != "" {
        sourceTotals := sourceTotals[s.source := Sum(sourceTotals, s.source) + value * 0.25];
        sourceCounts := sourceCounts[s.source := Tally(sourceCounts, s.source) + 1];
      }
    }
    assert signals[..|signals|] == signals;
    NormalizedIs(roleTotals, roleCounts, signals, RoleOf, exclude, 1.0);
    NormalizedIs(sourceTotals, sourceCounts, signals, SourceOf, exclude, 0.25);
    p := Profile(Normalized(roleTotals, roleCounts), Normalized(sourceTotals, sourceCounts));
  }

  lemma NoKeys(exclude: string)
    ensures Keys([], RoleOf, exclude) == {} && Keys([], SourceOf, exclude) == {}
  {
  }

  function Normalized(totals: map<string, real>, counts: map<string, nat>): map<string, real>
    requires totals.Keys == counts.Keys
  {
    map k | k in totals :: Clamp(totals[k] / (counts[k] + 1) as real, -35.0, 35.0)
  }

  lemma NormalizedIs(totals: map<string, real>, counts: map<string, nat>, signals: seq<Signal>, dim: Signal -> string,
                     exclude: string, weight: real)
    requires Tracks(totals, counts, signals, dim, exclude, weight) && 0.0 < weight <= 1.0
    ensures Normalized(totals, counts) == Affinities(signals, dim, exclude, weight)
  {
    forall k | k in totals ensures Normalized(totals, counts)[k] == Affinity(signals, dim, k, exclude, weight) {
      AffinityStrict(signals, dim, k, exclude, weight);
    }
  }

  // ----- what the profile means -----

  /** matching/recommendation_engine.py:35-42. */
  function Score(p: Profile, role: string, source: string): real {
    Clamp(50.0 + Sum(p.roles, role) + Sum(p.sources, source), 0.0, 100.0)
  }

  /** Role affinities stay inside (-24, 20), source affinities inside (-6, 5), the score inside
      (20, 75) - whatever was recorded - so neither clamp ever acts. */
  lemma ScoreStrict(signals: seq<Signal>, exclude: string, role: string, source: string)
    ensures var p := ProfileOf(signals, exclude);
      && -24.0 < Sum(p.roles, role) < 20.0 && -6.0 < Sum(p.sources, source) < 5.0
      && Score(p, role, source) == 50.0 + Sum(p.roles, role) + Sum(p.sources, source)
      && 20.0 < Score(p, role, source) < 75.0
  {
    AffinityStrict(signals, RoleOf, role, exclude, 1.0);
    AffinityStrict(signals, SourceOf, source, exclude, 0.25);
  }

  function Without(signals: seq<Signal>, exclude: string): seq<Signal> {
    if signals == [] then []
    else
      var rest, last := Without(signals[..|signals| - 1], exclude), signals[|signals| - 1];
      if last.opportunity == exclude then rest else rest + [last]
  }

  lemma BearsWithout(s: Signal, dim: Signal -> string, key: string, exclude: string)
    requires exclude != ""
    ensures Bears(s, dim, key, exclude) <==> s.opportunity != exclude && Bears(s, dim, key, "")
  {
  }

  lemma {:induction false} WithoutMembers(signals: seq<Signal>, exclude: string)
    ensures forall s :: s in Without(signals, exclude) <==> s in signals && s.opportunity != exclude
  {
    if signals != [] {
      var n := |signals| - 1;
      WithoutMembers(signals[..n], exclude);
      assert signals == signals[..n] + [signals[n]];
    }
  }

  lemma WithoutKeys(signals: seq<Signal>, dim: Signal -> string, exclude: string)
    requires exclude != ""
    ensures Keys(signals, dim, exclude) == Keys(Without(signals, exclude), dim, "")
  {
    hide Worth, Bears, Without;
    WithoutMembers(signals, exclude);
    forall s ensures Bears(s, dim, dim(s), exclude) <==> s.opportunity != exclude && Bears(s, dim, dim(s), "") {
      BearsWithout(s, dim, dim(s), exclude);
    }
  }

  lemma GainWithout(s: Signal, dim: Signal -> string, key: string, exclude: string, weight: real)
    requires exclude != ""
    ensures Hit(s, dim, key, exclude) == if s.opportunity == exclude then 0 else Hit(s, dim, key, "")
    ensures Gain(s, dim, key, exclude, weight)
         == if s.opportunity == exclude then 0.0 else Gain(s, dim, key, "", weight)
  {
  }

  lemma {:induction false} WithoutTotals(signals: seq<Signal>, dim: Signal -> string, key: string, exclude: string,
                                         weight: real)
    requires exclude != ""
    ensures Evidence(Without(signals, exclude), dim, key, "") == Evidence(signals, dim, key, exclude)
    ensures TotalWorth(Without(signals, exclude), dim, key, "", weight)
         == TotalWorth(signals, dim, key, exclude, weight)
  {
    if signals != [] {
      hide Hit, Gain;
      var n := |signals| - 1;
      WithoutTotals(signals[..n], dim, key, exclude, weight);
      SnocTotals(Without(signals[..n], exclude), signals[n], dim, key, "", weight);
      GainWithout(signals[n], dim, key, exclude, weight);
    }
  }

  /** Excluding an opportunity is the same as deleting its signals first. */
  lemma ExcludingIsDeleting(signals: seq<Signal>, exclude: string)
    requires exclude != ""
    ensures ProfileOf(signals, exclude) == ProfileOf(Without(signals, exclude), "")
  {
    WithoutAffinities(signals, RoleOf, exclude, 1.0);
    WithoutAffinities(signals, SourceOf, exclude, 0.25);
  }

  lemma WithoutAffinities(signals: seq<Signal>, dim: Signal -> string, exclude: string, weight: real)
    requires exclude != ""
    ensures Affinities(signals, dim, exclude, weight) == Affinities(Without(signals, exclude), dim, "", weight)
  {
    hide Keys, Bears, Worth, Without;
    WithoutKeys(signals, dim, exclude);
    forall k | k in Keys(signals, dim, exclude)
      ensures Affinity(signals, dim, k, exclude, weight) == Affinity(Without(signals, exclude), dim, k, "", weight)
    {
      WithoutTotals(signals, dim, k, exclude, weight);
    }
  }

  lemma {:induction false} TotalsRemoveAt(signals: seq<Signal>, i: nat, dim: Signal -> string, key: string,
                                          exclude: string, weight: real)
    requires i < |signals|
    ensures Evidence(signals, dim, key, exclude) ==
      Evidence(Sorting.RemoveAt(signals, i), dim, key, exclude) + Hit(signals[i], dim, key, exclude)
    ensures TotalWorth(signals, dim, key, exclude, weight) ==
      TotalWorth(Sorting.RemoveAt(signals, i), dim, key, exclude, weight)
      + Gain(signals[i], dim, key, exclude, weight)
  {
    var n := |signals| - 1;
    hide Gain, Hit, Sorting.RemoveAt;
    if i < n {
      TotalsRemoveAt(signals[..n], i, dim, key, exclude, weight);
      SnocTotals(Sorting.RemoveAt(signals[..n], i), signals[n], dim, key, exclude, weight);
    }
    RemoveBeforeLast(signals, i);
  }

  lemma RemoveBeforeLast(signals: seq<Signal>, i: nat)
    requires i < |signals|
    ensures var n := |signals| - 1;
      Sorting.RemoveAt(signals, i) ==
      if i == n then signals[..n] else Sorting.RemoveAt(signals[..n], i) + [signals[n]]
  {
  }

  lemma {:induction false} TotalsPermutation(a: seq<Signal>, b: seq<Signal>, dim: Signal -> string, key: string,
                                             exclude: string, weight: real)
    requires multiset(a) == multiset(b)
    ensures Evidence(a, dim, key, exclude) == Evidence(b, dim, key, exclude)
    ensures TotalWorth(a, dim, key, exclude, weight) == TotalWorth(b, dim, key, exclude, weight)
  {
    if b == [] {
      assert |a| == |multiset(a)| == 0;
    } else {
      var i := Sorting.TakeOut(a, b);
      TotalsRemoveAt(a, i, dim, key, exclude, weight);
      assert Sorting.RemoveAt(b, 0) == b[1..];
      TotalsRemoveAt(b, 0, dim, key, exclude, weight);
      TotalsPermutation(Sorting.RemoveAt(a, i), b[1..], dim, key, exclude, weight);
    }
  }

  /** The profile does not depend on the order of the signals. */
  lemma ProfilePermutation(a: seq<Signal>, b: seq<Signal>, exclude: string)
    requires multiset(a) == multiset(b)
    ensures ProfileOf(a, exclude) == ProfileOf(b, exclude)
  {
    AffinitiesPermutation(a, b, RoleOf, exclude, 1.0);
    AffinitiesPermutation(a, b, SourceOf, exclude, 0.25);
  }

  lemma AffinitiesPermutation(a: seq<Signal>, b: seq<Signal>, dim: Signal -> string, exclude: string, weight: real)
    requires multiset(a) == multiset(b)
    ensures Affinities(a, dim, exclude, weight) == Affinities(b, dim, exclude, weight)
  {
    Sorting.SameMembers(a, b);
    assert Keys(a, dim, exclude) == Keys(b, dim, exclude);
    forall k | k in Keys(a, dim, exclude)
      ensures Affinity(a, dim, k, exclude, weight) == Affinity(b, dim, k, exclude, weight)
    {
      TotalsPermutation(a, b, dim, k, exclude, weight);
    }
  }

  // ----- what repeated signals amount to -----

  function Copies(s: Signal, n: nat): (r: seq<Signal>)
    ensures |r| == n && forall i :: 0 <= i < n ==> r[i] == s
  {
    seq(n, i => s)
  }

  function Times(n: nat, x: real): real { n as real * x }

  lemma TimesStep(n: nat, x: real)
    ensures Times(0, x) == 0.0 && (n > 0 ==> Times(n, x) == Times(n - 1, x) + x)
  {
    if n > 0 {
      var m := (n - 1) as real;
      assert n as real == m + 1.0;
      assert (m + 1.0) * x == m * x + x;
    }
  }

  lemma {:induction false} CopiesWorth(s: Signal, n: nat, dim: Signal -> string, key: string, exclude: string,
                                       weight: real)
    ensures TotalWorth(Copies(s, n), dim, key, exclude, weight) == Times(n, Gain(s, dim, key, exclude, weight))
  {
    TimesStep(n, Gain(s, dim, key, exclude, weight));
    if n > 0 {
      hide Times, Gain, TotalWorth;
      CopiesWorth(s, n - 1, dim, key, exclude, weight);
      CopiesSnoc(s, n);
      SnocTotals(Copies(s, n - 1), s, dim, key, exclude, weight);
    }
  }

  lemma {:induction false} CopiesEvidence(s: Signal, n: nat, dim: Signal -> string, key: string, exclude: string)
    ensures Evidence(Copies(s, n), dim, key, exclude) == if Hit(s, dim, key, exclude) == 1 then n else 0
  {
    if n > 0 {
      hide Bears, Evidence;
      CopiesEvidence(s, n - 1, dim, key, exclude);
      CopiesSnoc(s, n);
      SnocTotals(Copies(s, n - 1), s, dim, key, exclude, 1.0);
    }
  }

  lemma CopiesSnoc(s: Signal, n: nat)
    requires n > 0
    ensures Copies(s, n) == Copies(s, n - 1) + [s]
  {
  }

  lemma CopiesKeys(s: Signal, n: nat, dim: Signal -> string, exclude: string)
    requires n > 0
    ensures Keys(Copies(s, n), dim, exclude) == if Bears(s, dim, dim(s), exclude) then {dim(s)} else {}
  {
    assert Copies(s, n)[0] in Copies(s, n);
  }

  /** What one signal says about its role: an explicit label goes before an action, and a saved or
      unlabelled posting says nothing. */
  function Says(s: Signal): real {
    if s.feedback == "good_match" then 20.0
    else if s.feedback == "bad_match" || s.feedback == "irrelevant_role" then -24.0
    else if s.action == "applied" || s.action == "submitted" then 12.0
    else 0.0
  }

  lemma CopiesAffinities(s: Signal, n: nat, dim: Signal -> string, exclude: string, weight: real)
    requires n > 0 && (exclude == "" || s.opportunity != exclude)
    ensures Affinities(Copies(s, n), dim, exclude, weight) ==
      if Says(s) != 0.0 && dim(s) != "" then map[dim(s) := n as real * (Says(s) * weight) / (n + 1) as real] else map[]
  {
    assert Says(s) == Worth(s);
    CopiesKeys(s, n, dim, exclude);
    CopiesWorth(s, n, dim, dim(s), exclude, weight);
    CopiesEvidence(s, n, dim, dim(s), exclude);
    if Says(s) != 0.0 && dim(s) != "" {
      assert Bears(s, dim, dim(s), exclude);
      assert Evidence(Copies(s, n), dim, dim(s), exclude) == n;
      assert TotalWorth(Copies(s, n), dim, dim(s), exclude, weight) == n as real * (Says(s) * weight);
      assert Affinity(Copies(s, n), dim, dim(s), exclude, weight) == n as real * (Says(s) * weight) / (n + 1) as real;
    } else {
      assert Keys(Copies(s, n), dim, exclude) == {};
    }
  }

  /** The same signal n times moves its role n/(n+1) of the way to what it says, and its source a
      quarter as far. */
  lemma RepeatedSignals(s: Signal, n: nat, exclude: string)
    requires n > 0 && (exclude == "" || s.opportunity != exclude)
    ensures var p, share := ProfileOf(Copies(s, n), exclude), n as real / (n + 1) as real;
      && p.roles == (if Says(s) != 0.0 && s.role != "" then map[s.role := share * Says(s)] else map[])
      && p.sources == (if Says(s) != 0.0 && s.source != "" then map[s.source := share * (Says(s) * 0.25)] else map[])
  {
    CopiesAffinities(s, n, RoleOf, exclude, 1.0);
    CopiesAffinities(s, n, SourceOf, exclude, 0.25);
    Reassociate(n as real, Says(s), (n + 1) as real);
    Reassociate(n as real, Says(s) * 0.25, (n + 1) as real);
  }

  lemma Reassociate(x: real, y: real, d: real)
    requires d != 0.0
    ensures x * y / d == x / d * y
  {
    assert x / d * y * d == x * y;
  }
}
