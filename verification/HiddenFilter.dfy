/** The exact filter pass of api/filters.py and the lightweight, memoised computation of hidden
    ids in api/routes_api.py that stands in for it. Text matching is opaque. */
module HiddenFilter {
  import opened Wrappers

  /** The registry, in its committed order. */
  datatype FilterId =
    | GeoEligibility | WorkModeOnsite | RedLines | ExcludedIndustries | TrackPreference | TargetRoles
    | PremiumFulltimeOnsite | StalePostings | MinFitScore | CompensationFloor

  datatype Mode = Hide | RankOnly | LabelOnly | UnknownMode

  datatype Setting = Setting(enabled: bool, mode: Mode)

  const DEFINITIONS: seq<FilterId> := [
    GeoEligibility, WorkModeOnsite, RedLines, ExcludedIndustries, TrackPreference, TargetRoles,
    PremiumFulltimeOnsite, StalePostings, MinFitScore, CompensationFloor]

  function Default(f: FilterId): Setting {
    match f
    case GeoEligibility => Setting(true, LabelOnly)
    case WorkModeOnsite => Setting(true, LabelOnly)
    case RedLines => Setting(true, Hide)
    case ExcludedIndustries => Setting(true, Hide)
    case TrackPreference => Setting(true, RankOnly)
    case TargetRoles => Setting(true, RankOnly)
    case PremiumFulltimeOnsite => Setting(true, RankOnly)
    case StalePostings => Setting(true, LabelOnly)
    case MinFitScore => Setting(false, Hide)
    case CompensationFloor => Setting(false, RankOnly)
  }

  function SettingFor(f: FilterId, settings: map<FilterId, Setting>): Setting {
    if f in settings then settings[f] else Default(f)
  }

  datatype Text = Text(title: string, organization: string, description: string)

  /** `hash` is empty when the record has no content hash. */
  datatype Record = Record(id: string, text: Text, hash: string)

  type Graph = nat

  /** The matchers; `other` also sees the evaluation facts the lightweight pass does not load. */
  datatype Matchers = Matchers(
    redLine: (Graph, Text) -> bool, industry: (Graph, Text) -> bool, other: (FilterId, Record) -> bool)

  datatype Outcome = Outcome(hiddenBy: seq<FilterId>, flaggedBy: seq<FilterId>, penalty: nat)

  datatype Facet = Facet(included: seq<string>, excluded: seq<string>)

  function Matches(w: Matchers, f: FilterId, graph: Option<Graph>, r: Record): bool {
    match f
    case RedLines => graph.Some? && w.redLine(graph.value, r.text)
    case ExcludedIndustries => graph.Some? && w.industry(graph.value, r.text)
    case _ => w.other(f, r)
  }

  /** One filter's contribution. */
  function Apply(w: Matchers, o: Outcome, f: FilterId, graph: Option<Graph>, r: Record, s: Setting): Outcome {
    if !s.enabled || !Matches(w, f, graph, r) then o
    else match s.mode
         case Hide => o.(hiddenBy := o.hiddenBy + [f])
         case RankOnly => o.(flaggedBy := o.flaggedBy + [f], penalty := o.penalty + 1)
         case LabelOnly => o.(flaggedBy := o.flaggedBy + [f])
         case UnknownMode => o
  }

  function Applied(w: Matchers, fs: seq<FilterId>, graph: Option<Graph>, r: Record,
                   settings: map<FilterId, Setting>): Outcome {
    if fs == [] then Outcome([], [], 0)
    else
      var f := fs[|fs| - 1];
      Apply(w, Applied(w, fs[..|fs| - 1], graph, r, settings), f, graph, r, SettingFor(f, settings))
  }

  /** What `apply_filters` decides, as a value. */
  function Exact(w: Matchers, graph: Option<Graph>, r: Record, settings: map<FilterId, Setting>): Outcome {
    Applied(w, DEFINITIONS, graph, r, settings)
  }

  predicate HidesIn(f: FilterId, settings: map<FilterId, Setting>) {
    SettingFor(f, settings) == Setting(true, Hide)
  }

  lemma {:induction false} HiddenByMembers(w: Matchers, fs: seq<FilterId>, graph: Option<Graph>, r: Record,
                                           settings: map<FilterId, Setting>)
    ensures forall f :: f in Applied(w, fs, graph, r, settings).hiddenBy <==>
      f in fs && HidesIn(f, settings) && Matches(w, f, graph, r)
  {
    if fs != [] {
      var n := |fs| - 1;
      HiddenByMembers(w, fs[..n], graph, r, settings);
      assert fs == fs[..n] + [fs[n]];
    }
  }

  /** Hidden exactly when some enabled hide-mode filter matches. */
  lemma HiddenIff(w: Matchers, graph: Option<Graph>, r: Record, settings: map<FilterId, Setting>)
    ensures Exact(w, graph, r, settings).hiddenBy != [] <==>
      exists f :: f in DEFINITIONS && HidesIn(f, settings) && Matches(w, f, graph, r)
  {
    var hidden := Exact(w, graph, r, settings).hiddenBy;
    HiddenByMembers(w, DEFINITIONS, graph, r, settings);
    if hidden != [] {
      assert hidden[0] in hidden;
    }
  }

  /** api/routes_api.py:271-282. */
  predicate CanPrefilter(settings: map<FilterId, Setting>, facets: seq<Facet>) {
    && (forall i :: 0 <= i < |facets| ==> facets[i].included == [] && facets[i].excluded == [])
    && OnlyTextHides(settings)
  }

  /** Its half about filters. The exact pass does not look at facets, so this half is what the
      verdict depends on. */
  predicate OnlyTextHides(settings: map<FilterId, Setting>) {
    forall f :: f in DEFINITIONS && HidesIn(f, settings) ==> f in {RedLines, ExcludedIndustries}
  }

  /** The verdict the lightweight pass computes from title, organization and description. */
  function Verdict(w: Matchers, graph: Graph, red: bool, industries: bool, text: Text): bool {
    (red && w.redLine(graph, text)) || (industries && w.industry(graph, text))
  }

  predicate HidesOtherwise(f: FilterId, settings: map<FilterId, Setting>) {
    HidesIn(f, settings) && f !in {RedLines, ExcludedIndustries}
  }

  /** Some other enabled hide-mode filter matches the record. */
  ghost predicate HiddenOtherwise(w: Matchers, graph: Graph, r: Record, settings: map<FilterId, Setting>) {
    exists f :: f in DEFINITIONS && HidesOtherwise(f, settings) && Matches(w, f, Some(graph), r)
  }

  function TextVerdict(w: Matchers, graph: Graph, r: Record, settings: map<FilterId, Setting>): bool {
    Verdict(w, graph, HidesIn(RedLines, settings), HidesIn(ExcludedIndustries, settings), r.text)
  }

  /** For every record and every matcher: the exact pass hides what the lightweight verdict hides
      and what another filter hides. */
  lemma ExactIsVerdictOrOther(w: Matchers, graph: Graph, r: Record, settings: map<FilterId, Setting>)
    ensures Exact(w, Some(graph), r, settings).hiddenBy != [] <==>
      TextVerdict(w, graph, r, settings) || HiddenOtherwise(w, graph, r, settings)
  {
    HiddenIff(w, Some(graph), r, settings);
    assert DEFINITIONS[2] == RedLines && DEFINITIONS[3] == ExcludedIndustries;
  }

  /** The two passes disagree about a record exactly if another hiding filter matches it and
      neither text filter hides it. */
  lemma VerdictDiffersIff(w: Matchers, graph: Graph, r: Record, settings: map<FilterId, Setting>)
    ensures (TextVerdict(w, graph, r, settings) <==> Exact(w, Some(graph), r, settings).hiddenBy == []) <==>
      HiddenOtherwise(w, graph, r, settings) && !TextVerdict(w, graph, r, settings)
  {
    ExactIsVerdictOrOther(w, graph, r, settings);
  }

  /** Whenever the lightweight pass is allowed, its verdict is the exact one. */
  lemma VerdictExact(w: Matchers, graph: Graph, r: Record, settings: map<FilterId, Setting>)
    requires OnlyTextHides(settings)
    ensures TextVerdict(w, graph, r, settings) <==> Exact(w, Some(graph), r, settings).hiddenBy != []
  {
    ExactIsVerdictOrOther(w, graph, r, settings);
  }

  /** With no truth graph, or neither filter hiding, nothing is hidden. */
  lemma NothingHidden(w: Matchers, graph: Option<Graph>, r: Record, settings: map<FilterId, Setting>)
    requires OnlyTextHides(settings)
    requires graph.None? || !(HidesIn(RedLines, settings) || HidesIn(ExcludedIndustries, settings))
    ensures Exact(w, graph, r, settings).hiddenBy == []
  {
    HiddenIff(w, graph, r, settings);
  }

  /** So the guard is exact: the verdict is right about every record under every matcher if and
      only if no other filter hides. */
  lemma PrefilterNeeded(settings: map<FilterId, Setting>, graph: Graph)
    ensures OnlyTextHides(settings) <==>
      forall w: Matchers, r: Record ::
        TextVerdict(w, graph, r, settings) <==> Exact(w, Some(graph), r, settings).hiddenBy != []
  {
    if OnlyTextHides(settings) {
      forall w: Matchers, r: Record
        ensures TextVerdict(w, graph, r, settings) <==> Exact(w, Some(graph), r, settings).hiddenBy != []
      {
        VerdictExact(w, graph, r, settings);
      }
    } else {
      var f :| f in DEFINITIONS && HidesIn(f, settings) && f !in {RedLines, ExcludedIndustries};
      var w := Matchers((g, t) => false, (g, t) => false, (x, y) => true);
      var r := Record("", Text("", "", ""), "");
      assert Matches(w, f, Some(graph), r);
      ExactIsVerdictOrOther(w, graph, r, settings);
      assert HiddenOtherwise(w, graph, r, settings) && !TextVerdict(w, graph, r, settings);
    }
  }

  function HiddenIds(w: Matchers, graph: Option<Graph>, rows: seq<Record>,
                     settings: map<FilterId, Setting>): set<string> {
    set r | r in rows && Exact(w, graph, r, settings).hiddenBy != [] :: r.id
  }

  function HiddenCount(w: Matchers, graph: Option<Graph>, rows: seq<Record>, settings: map<FilterId, Setting>): nat {
    if rows == [] then 0
    else
      HiddenCount(w, graph, rows[..|rows| - 1], settings)
      + if Exact(w, graph, rows[|rows| - 1], settings).hiddenBy != [] then 1 else 0
  }

  ghost predicate UniqueIds(rows: seq<Record>) {
    forall i, j :: 0 <= i < j < |rows| ==> rows[i].id != rows[j].id
  }

  /** With unique ids, counting hidden rows is counting hidden ids. */
  lemma {:induction false} CountIsSize(w: Matchers, graph: Option<Graph>, rows: seq<Record>,
                                       settings: map<FilterId, Setting>)
    requires UniqueIds(rows)
    ensures HiddenCount(w, graph, rows, settings) == |HiddenIds(w, graph, rows, settings)|
  {
    if rows != [] {
      hide Exact;
      var n := |rows| - 1;
      CountIsSize(w, graph, rows[..n], settings);
      HiddenIdsSnoc(w, graph, rows, settings);
    }
  }

  lemma HiddenIdsSnoc(w: Matchers, graph: Option<Graph>, rows: seq<Record>, settings: map<FilterId, Setting>)
    requires rows != [] && UniqueIds(rows)
    ensures var n := |rows| - 1;
      var before := HiddenIds(w, graph, rows[..n], settings);
      && rows[n].id !in before
      && HiddenIds(w, graph, rows, settings) ==
         before + if Exact(w, graph, rows[n], settings).hiddenBy != [] then {rows[n].id} else {}
  {
    hide Exact;
    var n := |rows| - 1;
    assert rows == rows[..n] + [rows[n]];
  }

  // ----- memo tables -----

  const MAX_ENTRIES := 100_000

  datatype Fingerprint = ByHash(hash: string) | ByText(text: Text)
  datatype MatchKey = MatchKey(graph: Graph, id: string, fingerprint: Fingerprint)
  datatype HiddenKey = HiddenKey(graph: Graph, red: bool, industries: bool, id: string, hash: string)

  function FingerprintOf(r: Record): Fingerprint {
    if r.hash != "" then ByHash(r.hash) else ByText(r.text)
  }

  class FilterCaches {
    const matchers: Matchers
    /** The text behind an (id, content hash) pair: a hash determines its text. */
    ghost const textOf: (string, string) -> Text
    var red: map<MatchKey, bool>
    var industry: map<MatchKey, bool>
    var hidden: map<HiddenKey, bool>

    ghost predicate Honest(r: Record) {
      r.text == textOf(r.id, r.hash)
    }

    ghost function TextBehind(k: MatchKey): Text {
      match k.fingerprint case ByHash(h) => textOf(k.id, h) case ByText(t) => t
    }

    /** Every remembered answer is right. */
    ghost predicate Valid()
      reads this
    {
      && (forall k :: k in red ==> red[k] == matchers.redLine(k.graph, TextBehind(k)))
      && (forall k :: k in industry ==> industry[k] == matchers.industry(k.graph, TextBehind(k)))
      && (forall k :: k in hidden ==>
            hidden[k] == Verdict(matchers, k.graph, k.red, k.industries, textOf(k.id, k.hash)))
    }

    constructor (w: Matchers, ghost textOf: (string, string) -> Text)
      ensures Valid() && matchers == w && this.textOf == textOf
    {
      matchers, this.textOf := w, textOf;
      red, industry, hidden := map[], map[], map[];
    }

    /** api/filters.py:343-383. */
    method RedLinesMatches(graph: Option<Graph>, r: Record) returns (b: bool)
      requires Valid() && Honest(r)
      modifies this`red
      ensures Valid() && b == Matches(matchers, RedLines, graph, r)
    {
      if graph.None? { return false; }
      var key := MatchKey(graph.value, r.id, FingerprintOf(r));
      if key in red { return red[key]; }
      b := matchers.redLine(graph.value, r.text);
      if |red| > MAX_ENTRIES {
        red := map[];
      }
      red := red[key := b];
    }

    /** api/filters.py:447-493. */
    method ExcludedIndustriesMatches(graph: Option<Graph>, r: Record) returns (b: bool)
      requires Valid() && Honest(r)
      modifies this`industry
      ensures Valid() && b == Matches(matchers, ExcludedIndustries, graph, r)
    {
      if graph.None? { return false; }
      var key := MatchKey(graph.value, r.id, FingerprintOf(r));
      if key in industry { return industry[key]; }
      b := matchers.industry(graph.value, r.text);
      if |industry| > MAX_ENTRIES {
        industry := map[];
      }
      industry := industry[key := b];
    }

    /** api/filters.py:901-942. */
    method ApplyFilters(graph: Option<Graph>, r: Record, settings: map<FilterId, Setting>) returns (o: Outcome)
      requires Valid() && Honest(r)
      modifies this`red, this`industry
      ensures Valid() && o == Exact(matchers, graph, r, settings)
    {
      var hiddenBy: seq<FilterId>, flaggedBy: seq<FilterId>, penalty := [], [], 0;
      for i := 0 to |DEFINITIONS|
        invariant Valid() && penalty >= 0
        invariant Outcome(hiddenBy, flaggedBy, penalty) == Applied(matchers, DEFINITIONS[..i], graph, r, settings)
      {
        var f := DEFINITIONS[i];
        assert DEFINITIONS[..i + 1][..i] == DEFINITIONS[..i];
        var s := SettingFor(f, settings);
        if !s.enabled { continue; }
        var matched;
        match f {
          case RedLines => matched := RedLinesMatches(graph, r);
          case ExcludedIndustries => matched := ExcludedIndustriesMatches(graph, r);
          case _ => matched := matchers.other(f, r);
        }
        if !matched { continue; }
        match s.mode {
          case Hide => hiddenBy := hiddenBy + [f];
          case RankOnly => flaggedBy, penalty := flaggedBy + [f], penalty + 1;
          case LabelOnly => flaggedBy := flaggedBy + [f];
          case UnknownMode =>
        }
      }
      assert DEFINITIONS[..|DEFINITIONS|] == DEFINITIONS;
      o := Outcome(hiddenBy, flaggedBy, penalty);
    }

    /** api/routes_api.py:338-361. */
    method IsHidden(graph: Graph, redActive: bool, industriesActive: bool, r: Record) returns (b: bool)
      requires Valid() && Honest(r)
      modifies this`red, this`industry
      ensures Valid() && b == Verdict(matchers, graph, redActive, industriesActive, r.text)
    {
      b := false;
      if redActive {
        b := RedLinesMatches(Some(graph), r);
      }
      if !b && industriesActive {
        b := ExcludedIndustriesMatches(Some(graph), r);
      }
    }

    /** api/routes_api.py:301-379: the ids the exact pass would hide, from whatever the memo
        tables already hold. */
    method LightweightHiddenIds(graph: Option<Graph>, rows: seq<Record>, settings: map<FilterId, Setting>)
        returns (ids: set<string>)
      requires Valid() && (forall r :: r in rows ==> Honest(r)) && OnlyTextHides(settings)
      modifies this
      ensures Valid()
      ensures ids == HiddenIds(matchers, graph, rows, settings)
    {
      var redActive, industriesActive := HidesIn(RedLines, settings), HidesIn(ExcludedIndustries, settings);
      if graph.None? || !(redActive || industriesActive) {
        forall r | r in rows ensures Exact(matchers, graph, r, settings).hiddenBy == [] {
          NothingHidden(matchers, graph, r, settings);
        }
        return {};
      }
      forall r | r in rows
        ensures Exact(matchers, graph, r, settings).hiddenBy != [] <==>
                Verdict(matchers, graph.value, redActive, industriesActive, r.text)
      {
        VerdictExact(matchers, graph.value, r, settings);
      }
      if |hidden| > MAX_ENTRIES {
        hidden := map[];
      }
      FillMissing(graph.value, rows, redActive, industriesActive);
      ids := set r | r in rows && hidden[KeyFor(graph.value, redActive, industriesActive, r)] :: r.id;
    }

    /** api/routes_api.py:2644-2650: the fast path where the guard allows it, the exact pass
        elsewhere, and the same count either way. */
    method CountHidden(graph: Option<Graph>, rows: seq<Record>, settings: map<FilterId, Setting>) returns (count: nat)
      requires Valid() && (forall r :: r in rows ==> Honest(r)) && UniqueIds(rows)
      modifies this
      ensures Valid()
      ensures count == HiddenCount(matchers, graph, rows, settings) == |HiddenIds(matchers, graph, rows, settings)|
    {
      hide Exact, HidesIn, HiddenIds, Applied;
      CountIsSize(matchers, graph, rows, settings);
      if CanPrefilter(settings, []) {
        var ids := LightweightHiddenIds(graph, rows, settings);
        return |ids|;
      }
      count := 0;
      for i := 0 to |rows|
        invariant Valid() && count == HiddenCount(matchers, graph, rows[..i], settings)
      {
        var o := ApplyFilters(graph, rows[i], settings);
        assert rows[..i + 1][..i] == rows[..i];
        if o.hiddenBy != [] {
          count := count + 1;
        }
      }
      assert rows[..|rows|] == rows;
    }

    /** api/routes_api.py:316-374: score only the rows no entry covers. */
    method FillMissing(graph: Graph, rows: seq<Record>, redActive: bool, industriesActive: bool)
      requires Valid() && forall r :: r in rows ==> Honest(r)
      modifies this
      ensures Valid()
      ensures forall r :: r in rows ==> KeyFor(graph, redActive, industriesActive, r) in hidden
    {
      var missing := set r | r in rows && KeyFor(graph, redActive, industriesActive, r) !in hidden :: r.id;
      for i := 0 to |rows|
        invariant Valid()
        invariant forall r :: r in rows && r.id !in missing ==> KeyFor(graph, redActive, industriesActive, r) in hidden
        invariant forall j :: 0 <= j < i ==> KeyFor(graph, redActive, industriesActive, rows[j]) in hidden
      {
        var r := rows[i];
        if r.id in missing {
          var b := IsHidden(graph, redActive, industriesActive, r);
          hidden := hidden[KeyFor(graph, redActive, industriesActive, r) := b];
        }
      }
    }
  }

  function KeyFor(graph: Graph, red: bool, industries: bool, r: Record): HiddenKey {
    HiddenKey(graph, red, industries, r.id, r.hash)
  }

  // ----- the defaults -----

  /** The registry lists every filter. */
  lemma AllRegistered(f: FilterId)
    ensures f in DEFINITIONS
  {
    var order := [GeoEligibility, WorkModeOnsite, RedLines, ExcludedIndustries, TrackPreference, TargetRoles,
                  PremiumFulltimeOnsite, StalePostings, MinFitScore, CompensationFloor];
    assert DEFINITIONS == order;
    assert order[0] == GeoEligibility && order[1] == WorkModeOnsite && order[2] == RedLines
        && order[3] == ExcludedIndustries && order[4] == TrackPreference && order[5] == TargetRoles
        && order[6] == PremiumFulltimeOnsite && order[7] == StalePostings && order[8] == MinFitScore
        && order[9] == CompensationFloor;
  }

  /** A filter hides if it is set to; if nothing is set, the two text filters hide and no other. */
  lemma HidesMeaning(f: FilterId, settings: map<FilterId, Setting>)
    ensures HidesIn(f, settings) <==>
      if f in settings then settings[f].enabled && settings[f].mode == Hide
      else f == RedLines || f == ExcludedIndustries
  {
  }

  /** The filter marks a matching record without hiding it. */
  predicate FlagsIn(f: FilterId, settings: map<FilterId, Setting>) {
    if f in settings then settings[f].enabled && (settings[f].mode == RankOnly || settings[f].mode == LabelOnly)
    else f !in {RedLines, ExcludedIndustries, MinFitScore, CompensationFloor}
  }

  /** ... and moves it down. */
  predicate RanksIn(f: FilterId, settings: map<FilterId, Setting>) {
    if f in settings then settings[f].enabled && settings[f].mode == RankOnly
    else f in {TrackPreference, TargetRoles, PremiumFulltimeOnsite}
  }

  function Ranking(w: Matchers, fs: seq<FilterId>, graph: Option<Graph>, r: Record, settings: map<FilterId, Setting>):
      set<FilterId>
  {
    set f | f in fs && RanksIn(f, settings) && Matches(w, f, graph, r)
  }

  lemma SettingMeaning(f: FilterId, settings: map<FilterId, Setting>)
    ensures var s := SettingFor(f, settings);
      && (FlagsIn(f, settings) <==> s.enabled && s.mode in {RankOnly, LabelOnly})
      && (RanksIn(f, settings) <==> s.enabled && s.mode == RankOnly)
  {
  }

  lemma {:induction false} FlagsOf(w: Matchers, fs: seq<FilterId>, graph: Option<Graph>, r: Record,
                                   settings: map<FilterId, Setting>)
    ensures forall f :: f in Applied(w, fs, graph, r, settings).flaggedBy <==>
      f in fs && FlagsIn(f, settings) && Matches(w, f, graph, r)
  {
    if fs != [] {
      var n := |fs| - 1;
      SettingMeaning(fs[n], settings);
      hide Matches, SettingFor, FlagsIn, RanksIn;
      FlagsOf(w, fs[..n], graph, r, settings);
      assert fs == fs[..n] + [fs[n]];
    }
  }

  lemma RankingSnoc(w: Matchers, fs: seq<FilterId>, graph: Option<Graph>, r: Record, settings: map<FilterId, Setting>)
    requires fs != [] && forall i, j :: 0 <= i < j < |fs| ==> fs[i] != fs[j]
    ensures var n := |fs| - 1; var before := Ranking(w, fs[..n], graph, r, settings);
      && fs[n] !in before
      && Ranking(w, fs, graph, r, settings) ==
         before + if RanksIn(fs[n], settings) && Matches(w, fs[n], graph, r) then {fs[n]} else {}
  {
    hide Matches, RanksIn;
    var n := |fs| - 1;
    assert fs == fs[..n] + [fs[n]];
  }

  lemma {:induction false} PenaltyOf(w: Matchers, fs: seq<FilterId>, graph: Option<Graph>, r: Record,
                                     settings: map<FilterId, Setting>)
    requires forall i, j :: 0 <= i < j < |fs| ==> fs[i] != fs[j]
    ensures Applied(w, fs, graph, r, settings).penalty == |Ranking(w, fs, graph, r, settings)|
  {
    if fs != [] {
      var n := |fs| - 1;
      SettingMeaning(fs[n], settings);
      RankingSnoc(w, fs, graph, r, settings);
      hide Matches, SettingFor, FlagsIn, RanksIn, Ranking;
      PenaltyOf(w, fs[..n], graph, r, settings);
    }
  }

  /** A record is flagged by exactly the marking filters that match it, and moves down one place for
      each ranking filter that does. */
  lemma FlaggedIff(w: Matchers, graph: Option<Graph>, r: Record, settings: map<FilterId, Setting>)
    ensures var o := Exact(w, graph, r, settings);
      && (forall f :: f in o.flaggedBy <==> FlagsIn(f, settings) && Matches(w, f, graph, r))
      && o.penalty == |set f: FilterId | RanksIn(f, settings) && Matches(w, f, graph, r)|
  {
    hide Applied, FlagsIn, RanksIn, Matches;
    forall f ensures f in DEFINITIONS {
      AllRegistered(f);
    }
    DefinitionsDistinct();
    FlagsOf(w, DEFINITIONS, graph, r, settings);
    PenaltyOf(w, DEFINITIONS, graph, r, settings);
    var matching := set f: FilterId | RanksIn(f, settings) && Matches(w, f, graph, r);
    assert Ranking(w, DEFINITIONS, graph, r, settings) == matching;
  }

  lemma DefinitionsDistinct()
    ensures forall i, j :: 0 <= i < j < |DEFINITIONS| ==> DEFINITIONS[i] != DEFINITIONS[j]
  {
  }
}
