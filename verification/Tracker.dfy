/** api/tracker_service.py and the attestation step of `submit_action` in api/routes_api.py:
    an event-logged state machine with idempotency keys and undo. The digest behind event ids is
    any function on texts. */
module FounderTracker {
  import opened Wrappers
  import Strings

  datatype State = ToReview | Saved | Applied | Submitted | RejectedByFounder | Dismissed | Snoozed

  /** `Restore` is only ever written by an undo; `SetStage` is deferred from this release. */
  datatype Action = Save | MarkApplied | Reject | Dismiss | Snooze | SetStage | Restore

  /** A call's clock reading: the naive UTC instant stored, and its ISO text. */
  datatype Instant = Instant(at: int, iso: string)

  /** `result` is NULL when an undo lands back on "to review". */
  datatype Event = Event(id: string, opportunity: string, action: Action, result: Option<State>, createdAt: int)

  datatype Status = AttestationSubmitted | AttestationUndone
  datatype Attestation = Attestation(opportunity: string, status: Status, createdAt: int)

  datatype Error =
    | Deferred | UnknownAction | OpportunityNotFound | KeyTooLong | KeyReused | NotAllowed
    | IntegrityFailure | KeyRequired | EventNotFound | NotUndoable | NotLatest | StateMoved

  datatype Outcome = Ok(state: State, previous: State, changed: bool, eventId: Option<string>) | Err(error: Error)

  const MAX_KEY := 128

  function ActionText(a: Action): string {
    match a
    case Save => "save" case MarkApplied => "mark_applied" case Reject => "reject"
    case Dismiss => "dismiss" case Snooze => "snooze" case SetStage => "set_stage" case Restore => "restore"
  }

  function Target(a: Action): Option<State> {
    match a
    case Save => Some(Saved) case MarkApplied => Some(Applied) case Reject => Some(RejectedByFounder)
    case Dismiss => Some(Dismissed) case Snooze => Some(Snoozed) case _ => None
  }

  predicate Undoable(a: Action) {
    a in {Save, MarkApplied, Reject}
  }

  function Seed(opportunity: string, key: string, a: Action, now: Instant): string {
    if key != "" then opportunity + ":" + key
    else opportunity + ":" + ActionText(a) + ":" + now.iso
  }

  function EventId(digest: string -> string, opportunity: string, key: string, a: Action, now: Instant): string {
    "activity-" + digest(Seed(opportunity, key, a, now))
  }

  predicate Allowed(previous: State, target: State) {
    match target
    case Saved => previous in {ToReview, Saved, Snoozed}
    case Applied => previous in {ToReview, Saved, Applied, Submitted, Snoozed, Dismissed}
    case RejectedByFounder => previous in {ToReview, Saved, Snoozed, RejectedByFounder, Dismissed}
    case Dismissed => true
    case Snoozed => previous in {ToReview, Snoozed, Dismissed}
    case _ => false
  }

  /** The edges, from every state: applied is reached from everywhere but a rejection, a rejection
      from everywhere but an application, saving and snoozing only before a decision, and dismissing
      always. */
  lemma Edges(s: State)
    ensures Allowed(s, Applied) <==> s != RejectedByFounder
    ensures Allowed(s, RejectedByFounder) <==> s != Applied && s != Submitted
    ensures Allowed(s, Saved) <==> s !in {Applied, Submitted, RejectedByFounder, Dismissed}
    ensures Allowed(s, Snoozed) <==> s !in {Saved, Applied, Submitted, RejectedByFounder}
    ensures Allowed(s, Dismissed) && !Allowed(s, ToReview) && !Allowed(s, Submitted)
  {
  }

  /** The state each action leads to; nothing else leads anywhere. */
  lemma Targets(a: Action)
    ensures Target(a) == Some(Saved) <==> a == Save
    ensures Target(a) == Some(Applied) <==> a == MarkApplied
    ensures Target(a) == Some(RejectedByFounder) <==> a == Reject
    ensures Target(a) == Some(Dismissed) <==> a == Dismiss
    ensures Target(a) == Some(Snoozed) <==> a == Snooze
    ensures Target(a) !in {Some(ToReview), Some(Submitted)}
  {
  }

  /** Under an injective digest, opportunities without a colon and non-empty keys have event ids of
      their own, whatever the action and the time. */
  lemma IdsSeparate(digest: string -> string, o: string, o': string, key: string, key': string, a: Action, a': Action,
                    t: Instant, t': Instant)
    requires forall x, y :: digest(x) == digest(y) ==> x == y
    requires ':' !in o && ':' !in o' && key != "" && key' != ""
    ensures EventId(digest, o, key, a, t) == EventId(digest, o', key', a', t') <==> o == o' && key == key'
  {
    if EventId(digest, o, key, a, t) == EventId(digest, o', key', a', t') {
      var x, y := digest(o + ":" + key), digest(o' + ":" + key');
      DropPrefix("activity-", x);
      DropPrefix("activity-", y);
      Strings.SplitAt(':', o, key, o', key');
    }
  }

  /** Requests without a key are told apart by action and time. */
  lemma UnkeyedIdsSeparate(digest: string -> string, o: string, a: Action, a': Action, t: Instant, t': Instant)
    requires forall x, y :: digest(x) == digest(y) ==> x == y
    ensures EventId(digest, o, "", a, t) == EventId(digest, o, "", a', t') <==> a == a' && t.iso == t'.iso
  {
    var s, s' := Seed(o, "", a, t), Seed(o, "", a', t');
    SamePrefix("activity-", digest(s), digest(s'));
    SeedText(o, a, t);
    SeedText(o, a', t');
    SamePrefix(o + ":", ActionText(a) + ":" + t.iso, ActionText(a') + ":" + t'.iso);
    NoColons(a);
    NoColons(a');
    TextsDiffer(a, a');
    if ActionText(a) + ":" + t.iso == ActionText(a') + ":" + t'.iso {
      Strings.SplitAt(':', ActionText(a), t.iso, ActionText(a'), t'.iso);
    }
  }

  lemma SeedText(o: string, a: Action, t: Instant)
    ensures Seed(o, "", a, t) == (o + ":") + (ActionText(a) + ":" + t.iso)
  {
    hide ActionText;
  }

  lemma SamePrefix(prefix: string, a: string, b: string)
    ensures prefix + a == prefix + b <==> a == b
  {
    DropPrefix(prefix, a);
    DropPrefix(prefix, b);
  }

  lemma DropPrefix(prefix: string, s: string)
    ensures (prefix + s)[|prefix|..] == s
  {
  }

  lemma NoColons(a: Action)
    ensures ':' !in ActionText(a)
  {
  }

  lemma TextsDiffer(a: Action, a': Action)
    ensures ActionText(a) == ActionText(a') ==> a == a'
  {
    if a != a' {
      assert |ActionText(a)| == |ActionText(a')| ==> ActionText(a)[0] != ActionText(a')[0];
    }
  }

  // ----- queries on the event table -----

  function Lookup(log: seq<Event>, id: string): Option<Event> {
    if log == [] then None
    else if log[|log| - 1].id == id then Some(log[|log| - 1])
    else Lookup(log[..|log| - 1], id)
  }

  /** `(created_at, id)` order: the ORDER BY of both queries, and `or_before`. */
  predicate Before(a: Event, b: Event) {
    a.createdAt < b.createdAt || (a.createdAt == b.createdAt && Strings.Lt(a.id, b.id))
  }

  /** First row of `SELECT ... WHERE p ORDER BY created_at DESC, id DESC`. */
  function LatestWhere(log: seq<Event>, p: Event -> bool): Option<Event> {
    if log == [] then None
    else
      var rest, last := LatestWhere(log[..|log| - 1], p), log[|log| - 1];
      if p(last) && (rest.None? || Before(rest.value, last)) then Some(last) else rest
  }

  function LatestFor(log: seq<Event>, opportunity: string): Option<Event> {
    LatestWhere(log, (e: Event) => e.opportunity == opportunity)
  }

  function PreviousFor(log: seq<Event>, opportunity: string, event: Event): Option<Event> {
    LatestWhere(log, (e: Event) => e.opportunity == opportunity && Before(e, event))
  }

  function ResultOf(e: Option<Event>): State {
    if e.Some? && e.value.result.Some? then e.value.result.value else ToReview
  }

  // ----- the log as history -----

  /** Position of an opportunity's last event in insertion order, -1 for none. */
  function LastIndex(log: seq<Event>, opportunity: string): (i: int)
    ensures -1 <= i < |log|
    ensures i >= 0 ==> log[i].opportunity == opportunity
    ensures forall j :: i < j < |log| ==> log[j].opportunity != opportunity
  {
    if log == [] then -1
    else if log[|log| - 1].opportunity == opportunity then |log| - 1
    else LastIndex(log[..|log| - 1], opportunity)
  }

  /** The state an opportunity is in after this history. */
  function StateAfter(log: seq<Event>, opportunity: string): State {
    var i := LastIndex(log, opportunity);
    ResultOf(if i < 0 then None else Some(log[i]))
  }

  ghost predicate DistinctIds(log: seq<Event>) {
    forall i, j :: 0 <= i < j < |log| ==> log[i].id != log[j].id
  }

  /** Per opportunity, the clock never stands still. */
  ghost predicate Chronological(log: seq<Event>) {
    forall i, j :: 0 <= i < j < |log| && log[i].opportunity == log[j].opportunity ==>
      log[i].createdAt < log[j].createdAt
  }

  /** Every undoable event moved its opportunity along an allowed edge. */
  ghost predicate LegalAt(log: seq<Event>, i: int)
    requires 0 <= i < |log|
  {
    && log[i].result != Some(ToReview)
    && (Undoable(log[i].action) ==>
          var before := StateAfter(log[..i], log[i].opportunity);
          && log[i].result == Target(log[i].action)
          && before != log[i].result.value && Allowed(before, log[i].result.value))
  }

  ghost predicate Legal(log: seq<Event>) {
    forall i :: 0 <= i < |log| ==> LegalAt(log, i)
  }

  ghost predicate SoundLog(log: seq<Event>) {
    DistinctIds(log) && Legal(log)
  }

  lemma {:induction false} LookupFinds(log: seq<Event>, id: string)
    ensures Lookup(log, id).Some? ==> Lookup(log, id).value in log && Lookup(log, id).value.id == id
    ensures Lookup(log, id).None? ==> forall e :: e in log ==> e.id != id
  {
    if log != [] {
      var n := |log| - 1;
      LookupFinds(log[..n], id);
      assert log == log[..n] + [log[n]];
    }
  }

  lemma {:induction false} LatestWhereIs(log: seq<Event>, p: Event -> bool, i: int)
    requires -1 <= i < |log|
    requires i >= 0 ==> p(log[i])
    requires forall j :: i < j < |log| ==> !p(log[j])
    requires forall j :: 0 <= j < i && p(log[j]) ==> Before(log[j], log[i])
    ensures LatestWhere(log, p) == if i < 0 then None else Some(log[i])
  {
    if log != [] {
      var n := |log| - 1;
      var init := log[..n];
      if i < n {
        LatestWhereIs(init, p, i);
      } else {
        LatestWhereMember(init, p);
      }
    }
  }

  lemma {:induction false} LatestWhereMember(log: seq<Event>, p: Event -> bool)
    ensures LatestWhere(log, p).Some? ==> exists j :: 0 <= j < |log| && log[j] == LatestWhere(log, p).value && p(log[j])
  {
    if log != [] {
      var n := |log| - 1;
      LatestWhereMember(log[..n], p);
      if LatestWhere(log[..n], p).Some? {
        var j :| 0 <= j < n && log[..n][j] == LatestWhere(log[..n], p).value && p(log[..n][j]);
        assert log[j] == log[..n][j];
      }
    }
  }

  lemma BeforeTransitive(a: Event, b: Event, c: Event)
    requires Before(a, b) && Before(b, c)
    ensures Before(a, c)
  {
    if a.createdAt == c.createdAt {
      Strings.LeTransitive(a.id, b.id, c.id);
      if a.id == c.id {
        Strings.LeAntisymmetric(a.id, b.id);
      }
    }
  }

  lemma BeforeTotal(a: Event, b: Event)
    ensures a.id != b.id ==> Before(a, b) || Before(b, a)
  {
    Strings.LeTotal(a.id, b.id);
  }

  /** The query returns the greatest matching row in `(created_at, id)` order. */
  lemma {:induction false} LatestIsGreatest(log: seq<Event>, p: Event -> bool, j: nat)
    requires DistinctIds(log) && j < |log| && p(log[j])
    ensures LatestWhere(log, p).Some?
    ensures LatestWhere(log, p).value == log[j] || Before(log[j], LatestWhere(log, p).value)
  {
    hide Before;
    var n := |log| - 1;
    var rest := LatestWhere(log[..n], p);
    LatestWhereMember(log[..n], p);
    if j < n {
      LatestIsGreatest(log[..n], p, j);
      if rest.value != log[j] && Before(rest.value, log[n]) {
        BeforeTransitive(log[j], rest.value, log[n]);
      }
    } else if rest.Some? {
      var i :| 0 <= i < n && log[..n][i] == rest.value;
      assert log[i].id != log[n].id;
      BeforeTotal(log[n], rest.value);
    }
  }

  /** The query's latest row is the last event appended exactly if that event is the greatest in
      `(created_at, id)` order among its opportunity's. */
  lemma LatestIff(log: seq<Event>, opportunity: string)
    requires DistinctIds(log) && LastIndex(log, opportunity) >= 0
    ensures var i := LastIndex(log, opportunity);
      LatestFor(log, opportunity) == Some(log[i]) <==>
      forall j :: 0 <= j < i && log[j].opportunity == opportunity ==> Before(log[j], log[i])
  {
    hide Before, LatestWhere;
    var i := LastIndex(log, opportunity);
    var p := (e: Event) => e.opportunity == opportunity;
    if forall j :: 0 <= j < i && log[j].opportunity == opportunity ==> Before(log[j], log[i]) {
      LatestWhereIs(log, p, i);
    }
    if LatestFor(log, opportunity) == Some(log[i]) {
      forall j | 0 <= j < i && log[j].opportunity == opportunity ensures Before(log[j], log[i]) {
        LatestIsGreatest(log, p, j);
        assert log[j].id != log[i].id;
      }
    }
  }

  /** The query's latest row is the last event appended. */
  lemma LatestIsLastAppended(log: seq<Event>, opportunity: string)
    requires Chronological(log)
    ensures LatestFor(log, opportunity) ==
      var i := LastIndex(log, opportunity); if i < 0 then None else Some(log[i])
  {
    LatestWhereIs(log, (e: Event) => e.opportunity == opportunity, LastIndex(log, opportunity));
  }

  /** `or_before` finds the event appended just before the opportunity's last one. */
  lemma PreviousIsLastBefore(log: seq<Event>, opportunity: string)
    requires Chronological(log) && LastIndex(log, opportunity) >= 0
    ensures var i := LastIndex(log, opportunity);
      ResultOf(PreviousFor(log, opportunity, log[i])) == StateAfter(log[..i], opportunity)
  {
    var i := LastIndex(log, opportunity);
    var k := LastIndex(log[..i], opportunity);
    var p := (e: Event) => e.opportunity == opportunity && Before(e, log[i]);
    forall j | k < j < |log| ensures !p(log[j]) {
      if j < i {
        assert log[j] == log[..i][j];
      }
    }
    LatestWhereIs(log, p, k);
  }

  lemma StateAfterSnoc(log: seq<Event>, e: Event, opportunity: string)
    ensures StateAfter(log + [e], opportunity) ==
      if e.opportunity == opportunity then ResultOf(Some(e)) else StateAfter(log, opportunity)
  {
    assert (log + [e])[..|log|] == log;
  }

  lemma SoundSnoc(log: seq<Event>, e: Event)
    requires SoundLog(log) && e.result != Some(ToReview)
    requires forall x :: x in log ==> x.id != e.id
    requires Undoable(e.action) ==>
      var before := StateAfter(log, e.opportunity);
      e.result == Target(e.action) && before != e.result.value && Allowed(before, e.result.value)
    ensures SoundLog(log + [e])
  {
    var log' := log + [e];
    forall i | 0 <= i < |log'| ensures LegalAt(log', i) {
      if i < |log| {
        assert LegalAt(log, i) && log'[..i] == log[..i];
      } else {
        assert log'[..i] == log;
      }
    }
  }

  /** Undoing never lands on `applied`: no undoable action leaves it. */
  lemma UndoNeverLandsOnApplied(log: seq<Event>, i: nat)
    requires Legal(log) && i < |log| && Undoable(log[i].action)
    ensures StateAfter(log[..i], log[i].opportunity) != Applied
  {
    assert LegalAt(log, i);
  }

  /** Two events of one instant: the query prefers the greater id, whichever came last. */
  lemma LatestOfTwo(x: Event, y: Event)
    requires x.opportunity == y.opportunity && x.createdAt == y.createdAt && x.id != y.id
    ensures LatestFor([x, y], x.opportunity) == Some(if Strings.Lt(x.id, y.id) then y else x)
    ensures LastIndex([x, y], x.opportunity) == 1
  {
    hide Strings.Lt;
    var p := (e: Event) => e.opportunity == x.opportunity;
    assert [x, y][..1] == [x] && [x][..0] == [];
    assert LatestWhere([], p) == None;
    assert LatestWhere([x], p) == Some(x);
    assert LatestFor([x, y], x.opportunity) == LatestWhere([x, y], p);
  }

  // ----- founder attestations -----

  predicate OpenFor(a: Attestation, opportunity: string) {
    a.opportunity == opportunity && a.status == AttestationSubmitted
  }

  function OpenCount(all: seq<Attestation>, opportunity: string): nat {
    if all == [] then 0
    else OpenCount(all[..|all| - 1], opportunity) + if OpenFor(all[|all| - 1], opportunity) then 1 else 0
  }

  /** Row of `SELECT ... WHERE submitted ORDER BY created_at DESC`, as a position, -1 for none. */
  function LatestOpen(all: seq<Attestation>, opportunity: string): (i: int)
    ensures -1 <= i < |all|
    ensures i >= 0 ==> OpenFor(all[i], opportunity)
    ensures i < 0 ==> forall j :: 0 <= j < |all| ==> !OpenFor(all[j], opportunity)
  {
    if all == [] then -1
    else
      var n := |all| - 1;
      var rest := LatestOpen(all[..n], opportunity);
      if OpenFor(all[n], opportunity) && (rest < 0 || all[rest].createdAt < all[n].createdAt) then n else rest
  }

  lemma {:induction false} OpenCountUpdate(all: seq<Attestation>, i: nat, a: Attestation, opportunity: string)
    requires i < |all|
    ensures OpenCount(all[i := a], opportunity) ==
      OpenCount(all, opportunity) - (if OpenFor(all[i], opportunity) then 1 else 0)
      + if OpenFor(a, opportunity) then 1 else 0
  {
    var n := |all| - 1;
    if i < n {
      OpenCountUpdate(all[..n], i, a, opportunity);
      assert all[i := a][..n] == all[..n][i := a];
    } else {
      assert all[i := a][..n] == all[..n];
    }
  }

  lemma OpenCountSnoc(all: seq<Attestation>, a: Attestation, opportunity: string)
    ensures OpenCount(all + [a], opportunity) ==
      OpenCount(all, opportunity) + if OpenFor(a, opportunity) then 1 else 0
  {
    assert (all + [a])[..|all|] == all;
  }

  lemma {:induction false} OpenCountZero(all: seq<Attestation>, opportunity: string)
    requires LatestOpen(all, opportunity) < 0
    ensures OpenCount(all, opportunity) == 0
  {
    if all != [] {
      assert !OpenFor(all[|all| - 1], opportunity);
      OpenCountZero(all[..|all| - 1], opportunity);
    }
  }

  lemma {:induction false} OpenCountPositive(all: seq<Attestation>, opportunity: string, i: nat)
    requires i < |all| && OpenFor(all[i], opportunity)
    ensures OpenCount(all, opportunity) >= 1
  {
    if i < |all| - 1 {
      OpenCountPositive(all[..|all| - 1], opportunity, i);
    }
  }

  // ----- the service -----

  function StateIn(triage: map<string, State>, opportunity: string): State {
    if opportunity in triage then triage[opportunity] else ToReview
  }

  /** The triage table is the log's current state, with no row for "to review". */
  ghost predicate Agrees(triage: map<string, State>, log: seq<Event>) {
    forall o :: StateIn(triage, o) == StateAfter(log, o) && (o in triage ==> triage[o] != ToReview)
  }

  /** Events already taken back lie under a later event of their opportunity. */
  ghost predicate Buried(log: seq<Event>, undone: set<string>) {
    && (forall i :: 0 <= i < |log| && log[i].id in undone ==> i < LastIndex(log, log[i].opportunity))
    && (forall id :: id in undone ==> Lookup(log, id).Some?)
  }

  /** Exactly this event was appended, and exactly its opportunity's triage state followed. */
  ghost predicate Logged(log: seq<Event>, triage: map<string, State>, log': seq<Event>,
                         triage': map<string, State>, e: Event) {
    log' == log + [e]
    && forall o :: StateIn(triage', o) == if o == e.opportunity then ResultOf(Some(e)) else StateIn(triage, o)
  }

  /** One founder request. */
  datatype Request =
    | Act(opportunity: string, now: Instant, key: string, action: Action, staged: bool)
    | TakeBack(opportunity: string, now: Instant, key: string, eventId: string)

  /** The clock moves on between two requests about the same opportunity. */
  ghost predicate ClockAdvances(requests: seq<Request>) {
    forall i, j :: 0 <= i < j < |requests| && requests[i].opportunity == requests[j].opportunity ==>
      requests[i].now.at < requests[j].now.at
  }

  /** A request that was accepted and made an entry. */
  predicate Changed(r: Outcome) {
    r.Ok? && r.changed
  }

  function EntryId(digest: string -> string, q: Request): string {
    EventId(digest, q.opportunity, q.key, if q.Act? then q.action else Restore, q.now)
  }

  /** The entry that a request with this outcome makes. */
  function Entry(digest: string -> string, q: Request, r: Outcome): Event
    requires Changed(r)
  {
    Event(EntryId(digest, q), q.opportunity, if q.Act? then q.action else Restore,
          if r.state == ToReview then None else Some(r.state), q.now.at)
  }

  function Entries(digest: string -> string, requests: seq<Request>, outcomes: seq<Outcome>): seq<Event>
    requires |outcomes| == |requests|
  {
    if requests == [] then []
    else
      var n := |requests| - 1;
      Entries(digest, requests[..n], outcomes[..n])
      + if Changed(outcomes[n]) then [Entry(digest, requests[n], outcomes[n])] else []
  }

  lemma NoEntries(digest: string -> string, requests: seq<Request>)
    ensures requests[..0] == [] && Entries(digest, [], []) == [] && UndoneOnce([], []) && KeysActOnce([], [])
  {
  }

  lemma EntriesSnoc(digest: string -> string, requests: seq<Request>, n: nat, outcomes: seq<Outcome>, r: Outcome)
    requires n < |requests| && |outcomes| == n
    ensures Entries(digest, requests[..n + 1], outcomes + [r])
         == Entries(digest, requests[..n], outcomes) + if Changed(r) then [Entry(digest, requests[n], r)] else []
  {
    assert requests[..n + 1][..n] == requests[..n] && (outcomes + [r])[..n] == outcomes;
  }

  ghost predicate Logs(log: seq<Event>, id: string) {
    exists i :: 0 <= i < |log| && log[i].id == id
  }

  /** A new entry's id is new, and older ids stay. */
  lemma NewEntry(log: seq<Event>, e: Event)
    requires DistinctIds(log + [e])
    ensures !Logs(log, e.id) && Logs(log + [e], e.id)
    ensures forall id :: Logs(log, id) ==> Logs(log + [e], id)
  {
    assert (log + [e])[|log|] == e;
    forall i | 0 <= i < |log| ensures log[i].id != e.id {
      assert (log + [e])[i] == log[i];
    }
    forall id | Logs(log, id) ensures Logs(log + [e], id) {
      var i :| 0 <= i < |log| && log[i].id == id;
      assert (log + [e])[i].id == id;
    }
  }

  predicate Undoes(q: Request, r: Outcome) {
    q.TakeBack? && Changed(r)
  }

  predicate SharesKey(q: Request, q': Request) {
    q.opportunity == q'.opportunity && q.key == q'.key != ""
  }

  /** No event is taken back by two requests. */
  ghost predicate UndoneOnce(requests: seq<Request>, outcomes: seq<Outcome>)
    requires |outcomes| == |requests|
  {
    forall i, j :: 0 <= i < j < |requests| && Undoes(requests[i], outcomes[i]) && Undoes(requests[j], outcomes[j]) ==>
      requests[i].eventId != requests[j].eventId
  }

  /** Of the requests about one opportunity with one key, at most one changes anything. */
  ghost predicate KeysActOnce(requests: seq<Request>, outcomes: seq<Outcome>)
    requires |outcomes| == |requests|
  {
    forall i, j :: 0 <= i < j < |requests| && SharesKey(requests[i], requests[j]) ==>
      !(Changed(outcomes[i]) && Changed(outcomes[j]))
  }

  lemma UndoneOnceSnoc(undone: set<string>, requests: seq<Request>, n: nat, outcomes: seq<Outcome>, r: Outcome)
    requires n < |requests| && |outcomes| == n && UndoneOnce(requests[..n], outcomes)
    requires forall i :: 0 <= i < n && Undoes(requests[i], outcomes[i]) ==> requests[i].eventId in undone
    requires Undoes(requests[n], r) ==> requests[n].eventId !in undone
    ensures UndoneOnce(requests[..n + 1], outcomes + [r])
  {
  }

  lemma KeysActOnceSnoc(digest: string -> string, log: seq<Event>, requests: seq<Request>, n: nat,
                        outcomes: seq<Outcome>, r: Outcome)
    requires n < |requests| && |outcomes| == n && KeysActOnce(requests[..n], outcomes)
    requires forall i :: 0 <= i < n && Changed(outcomes[i]) ==> Logs(log, EntryId(digest, requests[i]))
    requires Changed(r) ==> !Logs(log, EntryId(digest, requests[n]))
    ensures KeysActOnce(requests[..n + 1], outcomes + [r])
  {
    forall i | 0 <= i < n && SharesKey(requests[i], requests[n])
      ensures !(Changed(outcomes[i]) && Changed(r))
    {
      assert EntryId(digest, requests[i]) == EntryId(digest, requests[n]);
    }
  }

  class Tracker {
    const digest: string -> string
    var opportunities: set<string>
    var triage: map<string, State>
    var log: seq<Event>
    var attestations: seq<Attestation>
    /** Ids of the events an undo has already taken back. */
    ghost var undone: set<string>

    /** Everything but the link between `applied` and its attestation. */
    ghost predicate Core()
      reads this
    {
      && SoundLog(log) && Agrees(triage, log) && Buried(log, undone)
      && (forall o :: OpenCount(attestations, o) <= 1)
    }

    ghost predicate Valid()
      reads this
    {
      Core() && forall o :: StateIn(triage, o) == Applied ==> OpenCount(attestations, o) == 1
    }

    /** `now` is later than everything logged for this opportunity. */
    ghost predicate Later(opportunity: string, now: Instant)
      reads this
    {
      forall e :: e in log && e.opportunity == opportunity ==> e.createdAt < now.at
    }

    constructor (digest: string -> string, known: set<string>)
      ensures Valid() && log == [] && triage == map[] && attestations == [] && opportunities == known
      ensures this.digest == digest
    {
      this.digest := digest;
      opportunities, triage, log, attestations, undone := known, map[], [], [], {};
    }

    /** Append one event and move the triage row. */
    method Append(e: Event, state: State)
      requires Core()
      requires e.result == if state == ToReview then None else Some(state)
      requires Lookup(log, e.id).None?
      requires Undoable(e.action) ==>
        var before := StateAfter(log, e.opportunity);
        e.result == Target(e.action) && before != state && Allowed(before, state)
      modifies this`triage, this`log
      ensures Core() && Logged(old(log), old(triage), log, triage, e)
      ensures old(Chronological(log) && Later(e.opportunity, Instant(e.createdAt, ""))) ==> Chronological(log)
    {
      LookupFinds(log, e.id);
      SoundSnoc(log, e);
      BuriedGrows(log, e, undone);
      AgreesGrows(triage, log, e, state);
      triage := Moved(triage, e.opportunity, state);
      log := log + [e];
    }

    /** A request that gets past the checks before the triage row is read. */
    ghost predicate Admissible(opportunity: string, a: Action, key: string, staged: bool)
      reads this
    {
      !staged && Target(a).Some? && opportunity in opportunities && |key| <= 128
    }

    /** A request that moves the opportunity along an allowed edge under an unused event id. */
    ghost predicate Advances(opportunity: string, a: Action, key: string, staged: bool, now: Instant)
      reads this
    {
      && Admissible(opportunity, a, key, staged)
      && Lookup(log, EventId(digest, opportunity, key, a, now)).None?
      && StateIn(triage, opportunity) != Target(a).value
      && Allowed(StateIn(triage, opportunity), Target(a).value)
    }

    /** A keyed request whose event is already logged for this opportunity and action. */
    ghost predicate Replays(opportunity: string, a: Action, key: string, now: Instant)
      reads this
    {
      key != "" && var e := Lookup(log, EventId(digest, opportunity, key, a, now));
      e.Some? && e.value.opportunity == opportunity && e.value.action == a
    }

    /** A request that is accepted without changing anything. */
    ghost predicate Repeats(opportunity: string, a: Action, key: string, staged: bool, now: Instant)
      reads this
    {
      && Admissible(opportunity, a, key, staged)
      && (Replays(opportunity, a, key, now)
          || ((key == "" || Lookup(log, EventId(digest, opportunity, key, a, now)).None?)
              && StateIn(triage, opportunity) == Target(a).value))
    }

    /** What a repeated request is told: the current state, or, when the opportunity is back to "to
        review", what its own event recorded - the target of the action, which only the replay of
        an undone action can be told. */
    ghost function Answer(opportunity: string, a: Action, key: string, now: Instant): State
      reads this
    {
      if opportunity in triage then triage[opportunity]
      else ResultOf(Lookup(log, EventId(digest, opportunity, key, a, now)))
    }

    /** api/tracker_service.py:92-157. `staged` says that a target stage was supplied. */
    method Transition(opportunity: string, a: Action, now: Instant, key: string, staged: bool) returns (r: Outcome)
      requires Valid()
      modifies this`triage, this`log
      ensures Core()
      ensures old(Chronological(log) && Later(opportunity, now)) ==> Chronological(log)
      ensures r.Ok? && r.changed <==> old(Advances(opportunity, a, key, staged, now))
      ensures r.Ok? && !r.changed <==> old(Repeats(opportunity, a, key, staged, now))
      ensures r.Ok? && r.changed ==>
        && r == Ok(Target(a).value, StateIn(old(triage), opportunity), true,
                   Some(EventId(digest, opportunity, key, a, now)))
        && Logged(old(log), old(triage), log, triage,
                  Event(r.eventId.value, opportunity, a, Some(r.state), now.at))
      ensures r.Ok? && !r.changed ==> r.previous == r.state && r.state == old(Answer(opportunity, a, key, now))
      ensures r.Ok? && !r.changed ==>
        r.eventId ==
        if old(Replays(opportunity, a, key, now)) then Some(EventId(digest, opportunity, key, a, now)) else None
      ensures !(r.Ok? && r.changed) ==> log == old(log) && triage == old(triage)
      ensures forall o :: StateIn(triage, o) == Applied ==>
        StateIn(old(triage), o) == Applied || (o == opportunity && a == MarkApplied && r.Ok? && r.changed)
    {
      hide SoundLog, Buried, LastIndex, OpenCount, Lookup;
      if a == SetStage || staged { return Err(Deferred); }
      if Target(a).None? { return Err(UnknownAction); }
      if opportunity !in opportunities { return Err(OpportunityNotFound); }
      if |key| > MAX_KEY { return Err(KeyTooLong); }
      var target, id := Target(a).value, EventId(digest, opportunity, key, a, now);
      var replay := Lookup(log, id);
      if key != "" && replay.Some? {
        if replay.value.opportunity != opportunity || replay.value.action != a { return Err(KeyReused); }
        var state := if opportunity in triage then triage[opportunity] else ResultOf(replay);
        return Ok(state, state, false, Some(id));
      }
      var previous := StateIn(triage, opportunity);
      if previous == target { return Ok(target, previous, false, None); }
      if !Allowed(previous, target) { return Err(NotAllowed); }
      if replay.Some? { return Err(IntegrityFailure); }
      Append(Event(id, opportunity, a, Some(target), now.at), target);
      return Ok(target, previous, true, Some(id));
    }

    /** The tracker part of api/routes_api.py:2484-2540, one transaction. */
    method Submit(opportunity: string, a: Action, now: Instant, key: string, staged: bool) returns (r: Outcome)
      requires Valid()
      modifies this`triage, this`log, this`attestations
      ensures Valid()
      ensures old(Chronological(log) && Later(opportunity, now)) ==> Chronological(log)
      ensures r.Ok? && r.changed <==> old(Advances(opportunity, a, key, staged, now))
      ensures r.Ok? && !r.changed <==> old(Repeats(opportunity, a, key, staged, now))
      ensures r.Ok? && r.changed ==>
        && r == Ok(Target(a).value, StateIn(old(triage), opportunity), true,
                   Some(EventId(digest, opportunity, key, a, now)))
        && Logged(old(log), old(triage), log, triage,
                  Event(r.eventId.value, opportunity, a, Some(r.state), now.at))
      ensures r.Ok? && !r.changed ==> r.previous == r.state && r.state == old(Answer(opportunity, a, key, now))
      ensures r.Ok? && !r.changed ==>
        r.eventId ==
        if old(Replays(opportunity, a, key, now)) then Some(EventId(digest, opportunity, key, a, now)) else None
      ensures !(r.Ok? && r.changed) ==> log == old(log) && triage == old(triage) && attestations == old(attestations)
      ensures attestations == old(attestations)
        || (a == MarkApplied && OpenCount(old(attestations), opportunity) == 0
            && attestations == old(attestations) + [Attestation(opportunity, AttestationSubmitted, now.at)])
    {
      hide SoundLog, Agrees, Buried, OpenCount, Lookup, EventId, Allowed, Chronological;
      r := Transition(opportunity, a, now, key, staged);
      if r.Ok? && a == MarkApplied {
        Attest(opportunity, now, r.changed);
      }
    }

    /** A request that is known to advance. */
    method Advance(opportunity: string, a: Action, now: Instant, key: string)
      requires Valid() && Advances(opportunity, a, key, false, now)
      modifies this`triage, this`log, this`attestations
      ensures Valid() && StateIn(triage, opportunity) == Target(a).value
      ensures log == old(log) + [Event(EventId(digest, opportunity, key, a, now), opportunity, a, Target(a), now.at)]
    {
      hide Core, Lookup, EventId, Allowed;
      var _ := Submit(opportunity, a, now, key, false);
    }

    /** api/routes_api.py:2500-2537: reuse the open attestation, or open one. */
    method Attest(opportunity: string, now: Instant, changed: bool)
      requires forall o :: OpenCount(attestations, o) <= 1
      modifies this`attestations
      ensures forall o ::
        OpenCount(attestations, o) == if o == opportunity && changed then 1 else OpenCount(old(attestations), o)
      ensures attestations == if changed && OpenCount(old(attestations), opportunity) == 0
        then old(attestations) + [Attestation(opportunity, AttestationSubmitted, now.at)] else old(attestations)
    {
      var open := LatestOpen(attestations, opportunity);
      if open >= 0 {
        OpenCountPositive(attestations, opportunity, open);
      } else {
        OpenCountZero(attestations, opportunity);
        if changed {
          var a := Attestation(opportunity, AttestationSubmitted, now.at);
          forall o ensures OpenCount(attestations + [a], o) ==
            OpenCount(attestations, o) + if OpenFor(a, o) then 1 else 0
          {
            OpenCountSnoc(attestations, a, o);
          }
          attestations := attestations + [a];
        }
      }
    }

    /** The event `id` names may be undone: it is this opportunity's last, and of the right kind. */
    ghost predicate CanUndo(opportunity: string, id: string)
      reads this
    {
      var i := LastIndex(log, opportunity);
      i >= 0 && log[i].id == id && log[i].action in {Save, MarkApplied, Reject}
    }

    /** api/tracker_service.py:160-245. */
    method RestoreTransition(opportunity: string, eventId: string, now: Instant, key: string) returns (r: Outcome)
      requires Valid() && Chronological(log) && Later(opportunity, now)
      modifies this
      ensures Valid() && Chronological(log) && opportunities == old(opportunities)
      ensures r.Ok? && r.changed <==>
        && 0 < |key| <= 128 && Lookup(old(log), EventId(digest, opportunity, key, Restore, now)).None?
        && old(CanUndo(opportunity, eventId))
      ensures r.Ok? && r.changed ==>
        var i := LastIndex(old(log), opportunity);
        && r.state == StateAfter(old(log)[..i], opportunity) && r.state != Applied
        && Logged(old(log), old(triage), log, triage,
                  Event(EventId(digest, opportunity, key, Restore, now), opportunity, Restore,
                        if r.state == ToReview then None else Some(r.state), now.at))
        && eventId !in old(undone) && undone == old(undone) + {eventId}
        && (if old(log)[i].action == MarkApplied
            then OpenCount(attestations, opportunity) == 0 else attestations == old(attestations))
      ensures !(r.Ok? && r.changed) ==>
        log == old(log) && triage == old(triage) && attestations == old(attestations) && undone == old(undone)
      ensures forall o :: o != opportunity ==> OpenCount(attestations, o) == OpenCount(old(attestations), o)
      ensures r != Err(StateMoved)
      ensures r.Ok? && !r.changed <==> 0 < |key| <= 128 && old(Replays(opportunity, Restore, key, now))
      ensures r.Ok? && !r.changed ==>
        var e := Lookup(old(log), EventId(digest, opportunity, key, Restore, now)).value;
        r.state == (if e.result.Some? then e.result.value else ToReview) && r.eventId == Some(e.id)
      ensures r.Ok? && r.changed ==> r.eventId == Some(EventId(digest, opportunity, key, Restore, now))
    {
      if key == "" || |key| > MAX_KEY { return Err(KeyRequired); }
      var id := EventId(digest, opportunity, key, Restore, now);
      var existing := Lookup(log, id);
      LookupFinds(log, id);
      if existing.Some? {
        if existing.value.opportunity != opportunity || existing.value.action != Restore { return Err(KeyReused); }
        return Ok(ResultOf(existing), ResultOf(existing), false, Some(id));
      }
      LatestIsLastAppended(log, opportunity);
      var original, refusal := FindUndoable(opportunity, eventId);
      if original.None? { return Err(refusal); }
      var moved := Moves(opportunity, original.value);
      if moved {
        r := Err(StateMoved);
      } else {
        var state := Undo(opportunity, original.value, id, now);
        r := Ok(state, state, true, Some(id));
      }
    }

    /** api/tracker_service.py:183-196, whatever the clock did. */
    method FindUndoable(opportunity: string, eventId: string) returns (original: Option<Event>, refusal: Error)
      requires DistinctIds(log)
      ensures original.Some? <==>
        var latest := LatestFor(log, opportunity);
        latest.Some? && latest.value.id == eventId && latest.value.action in {Save, MarkApplied, Reject}
      ensures original.Some? ==> original == LatestFor(log, opportunity)
      ensures refusal in {EventNotFound, NotUndoable, NotLatest}
    {
      original, refusal := Lookup(log, eventId), NotLatest;
      LookupFinds(log, eventId);
      LatestWhereMember(log, (e: Event) => e.opportunity == opportunity);
      var latest := LatestFor(log, opportunity);
      assert latest.Some? ==> latest.value in log && latest.value.opportunity == opportunity;
      assert latest.Some? && original.Some? && latest.value.id == eventId ==> latest == original;
      if original.None? || original.value.opportunity != opportunity { return None, EventNotFound; }
      if !Undoable(original.value.action) { return None, NotUndoable; }
      if latest.None? || latest.value.id != eventId { return None, NotLatest; }
    }

    /** api/tracker_service.py:198-200: the triage row no longer matches the last event. It
        always does. */
    method Moves(opportunity: string, original: Event) returns (moved: bool)
      requires Valid() && LastIndex(log, opportunity) >= 0 && log[LastIndex(log, opportunity)] == original
      requires Undoable(original.action)
      ensures !moved
    {
      assert LegalAt(log, LastIndex(log, opportunity));
      assert StateIn(triage, opportunity) == StateAfter(log, opportunity);
      moved := opportunity !in triage || Some(triage[opportunity]) != original.result;
    }

    /** api/tracker_service.py:202-245. */
    method Undo(opportunity: string, original: Event, id: string, now: Instant) returns (previous: State)
      requires Valid() && Chronological(log) && Later(opportunity, now) && Lookup(log, id).None?
      requires LastIndex(log, opportunity) >= 0 && log[LastIndex(log, opportunity)] == original
      requires Undoable(original.action)
      modifies this`triage, this`log, this`attestations, this`undone
      ensures Valid() && Chronological(log)
      ensures previous == StateAfter(old(log)[..LastIndex(old(log), opportunity)], opportunity) && previous != Applied
      ensures Logged(old(log), old(triage), log, triage,
                     Event(id, opportunity, Restore, if previous == ToReview then None else Some(previous), now.at))
      ensures original.id !in old(undone) && undone == old(undone) + {original.id}
      ensures if original.action == MarkApplied
        then OpenCount(attestations, opportunity) == 0 else attestations == old(attestations)
      ensures forall o :: o != opportunity ==> OpenCount(attestations, o) == OpenCount(old(attestations), o)
    {
      hide SoundLog, Agrees, Buried, StateAfter, LastIndex, OpenCount, Lookup;
      previous := StateBefore(opportunity, original);
      if original.action == MarkApplied {
        WithdrawAttestation(opportunity);
      }
      var result := if previous == ToReview then None else Some(previous);
      BuryLast(opportunity, Event(id, opportunity, Restore, result, now.at), previous);
    }

    /** api/tracker_service.py:202-211. */
    method StateBefore(opportunity: string, original: Event) returns (previous: State)
      requires SoundLog(log) && Chronological(log)
      requires LastIndex(log, opportunity) >= 0 && log[LastIndex(log, opportunity)] == original
      requires Undoable(original.action)
      ensures previous == StateAfter(log[..LastIndex(log, opportunity)], opportunity) && previous != Applied
    {
      UndoNeverLandsOnApplied(log, LastIndex(log, opportunity));
      PreviousIsLastBefore(log, opportunity);
      previous := ResultOf(PreviousFor(log, opportunity, original));
    }

    /** Log the undo of an opportunity's last event. */
    method BuryLast(opportunity: string, e: Event, state: State)
      requires Core() && Chronological(log) && Later(opportunity, Instant(e.createdAt, "")) && Lookup(log, e.id).None?
      requires LastIndex(log, opportunity) >= 0 && e.opportunity == opportunity && e.action == Restore
      requires e.result == if state == ToReview then None else Some(state)
      modifies this`triage, this`log, this`undone
      ensures Core() && Chronological(log) && Logged(old(log), old(triage), log, triage, e)
      ensures old(log)[LastIndex(old(log), opportunity)].id !in old(undone)
      ensures undone == old(undone) + {old(log)[LastIndex(old(log), opportunity)].id}
    {
      ghost var i := LastIndex(log, opportunity);
      LastIsLookedUp(log, i);
      UndoBuries(log, i, e, undone);
      NotYetUndone(log, undone, i);
      ghost var id := log[i].id;
      hide SoundLog, Agrees, OpenCount, Chronological, Buried, Lookup, LastIndex;
      Append(e, state);
      undone := undone + {id};
    }

    /** Acting and then undoing returns every opportunity to exactly the state it was in. */
    method ActThenUndo(opportunity: string, a: Action, now: Instant, key: string, later: Instant, undoKey: string)
        returns (acted: Outcome, undo: Outcome)
      requires Valid() && Chronological(log) && Later(opportunity, now) && now.at < later.at
      modifies this
      ensures Valid() && Chronological(log)
      ensures acted.Ok? && acted.changed && undo.Ok? && undo.changed ==>
        forall o :: StateIn(triage, o) == StateIn(old(triage), o)
    {
      hide SoundLog, Buried, OpenCount, Lookup, Chronological, StateAfter, LastIndex;
      acted := Submit(opportunity, a, now, key, false);
      undo := Err(EventNotFound);
      if acted.Ok? && acted.changed {
        UndoReturns(old(log), log[|log| - 1]);
        undo := RestoreTransition(opportunity, acted.eventId.value, later, undoKey);
      }
    }

    /** One request of either kind, and the entry it makes in the log, if it makes one. */
    method Serve(q: Request) returns (r: Outcome)
      requires Valid() && Chronological(log) && Later(q.opportunity, q.now)
      modifies this
      ensures Valid() && Chronological(log)
      ensures log == old(log) + if Changed(r) then [Entry(digest, q, r)] else []
      ensures Undoes(q, r) ==> q.eventId !in old(undone) && undone == old(undone) + {q.eventId}
      ensures !Undoes(q, r) ==> undone == old(undone)
    {
      match q
      case Act(opportunity, now, key, a, staged) =>
        r := Submit(opportunity, a, now, key, staged);
      case TakeBack(opportunity, now, key, eventId) =>
        r := RestoreTransition(opportunity, eventId, now, key);
    }

    /** Any run of requests: every state on the way is valid; the log grows by exactly the entries
        of the requests that changed something; no event is taken back twice; and a key changes
        something once at most, however often it is sent. */
    method Run(requests: seq<Request>) returns (outcomes: seq<Outcome>)
      requires Valid() && Chronological(log) && ClockAdvances(requests)
      requires forall i :: 0 <= i < |requests| ==> Later(requests[i].opportunity, requests[i].now)
      modifies this
      ensures Valid() && Chronological(log) && |outcomes| == |requests|
      ensures log == old(log) + Entries(digest, requests, outcomes)
      ensures UndoneOnce(requests, outcomes) && KeysActOnce(requests, outcomes)
    {
      outcomes := [];
      NoEntries(digest, requests);
      hide Core, Entries, Chronological, Logs, UndoneOnce, KeysActOnce, EventId;
      for n := 0 to |requests|
        invariant Valid() && Chronological(log) && |outcomes| == n
        invariant forall j :: n <= j < |requests| ==> Later(requests[j].opportunity, requests[j].now)
        invariant log == old(log) + Entries(digest, requests[..n], outcomes)
        invariant forall i :: 0 <= i < n && Changed(outcomes[i]) ==> Logs(log, EntryId(digest, requests[i]))
        invariant forall i :: 0 <= i < n && Undoes(requests[i], outcomes[i]) ==> requests[i].eventId in undone
        invariant UndoneOnce(requests[..n], outcomes) && KeysActOnce(requests[..n], outcomes)
      {
        ghost var before, taken := log, undone;
        var q := requests[n];
        var r := Serve(q);
        EntriesSnoc(digest, requests, n, outcomes, r);
        CoreDistinct();
        if Changed(r) {
          NewEntry(before, Entry(digest, q, r));
        } else {
          assert log == before;
        }
        KeysActOnceSnoc(digest, before, requests, n, outcomes, r);
        UndoneOnceSnoc(taken, requests, n, outcomes, r);
        outcomes := outcomes + [r];
      }
      assert requests[..|requests|] == requests;
    }

    lemma CoreDistinct()
      requires Core()
      ensures DistinctIds(log)
    {
    }

    /** api/tracker_service.py:221-234. */
    method WithdrawAttestation(opportunity: string)
      requires forall o :: OpenCount(attestations, o) <= 1
      modifies this`attestations
      ensures forall o :: OpenCount(attestations, o) == if o == opportunity then 0 else OpenCount(old(attestations), o)
      ensures |attestations| == |old(attestations)|
    {
      var i := LatestOpen(attestations, opportunity);
      if i < 0 {
        OpenCountZero(attestations, opportunity);
      } else {
        OpenCountPositive(attestations, opportunity, i);
        var closed := attestations[i].(status := AttestationUndone);
        forall o ensures OpenCount(attestations[i := closed], o) ==
          OpenCount(attestations, o) - if OpenFor(attestations[i], o) then 1 else 0
        {
          OpenCountUpdate(attestations, i, closed, o);
        }
        attestations := attestations[i := closed];
      }
    }
  }

  /** `session.delete(triage)` or `triage.state = state`. */
  function Moved(triage: map<string, State>, opportunity: string, state: State): map<string, State> {
    if state == ToReview then triage - {opportunity} else triage[opportunity := state]
  }

  lemma LastIsLookedUp(log: seq<Event>, i: nat)
    requires i < |log|
    ensures Lookup(log, log[i].id).Some?
  {
    LookupFinds(log, log[i].id);
  }

  lemma NotYetUndone(log: seq<Event>, undone: set<string>, i: nat)
    requires Buried(log, undone) && i < |log| && LastIndex(log, log[i].opportunity) == i
    ensures log[i].id !in undone
  {
  }

  lemma AgreesGrows(triage: map<string, State>, log: seq<Event>, e: Event, state: State)
    requires Agrees(triage, log)
    requires e.result == if state == ToReview then None else Some(state)
    ensures Agrees(Moved(triage, e.opportunity, state), log + [e])
    ensures forall o ::
      StateIn(Moved(triage, e.opportunity, state), o) == if o == e.opportunity then state else StateIn(triage, o)
  {
    forall o ensures StateAfter(log + [e], o) == if e.opportunity == o then ResultOf(Some(e)) else StateAfter(log, o) {
      StateAfterSnoc(log, e, o);
    }
  }

  lemma SnocQueries(log: seq<Event>, e: Event, id: string, o: string)
    ensures Lookup(log + [e], id) == if e.id == id then Some(e) else Lookup(log, id)
    ensures LastIndex(log + [e], o) == if e.opportunity == o then |log| else LastIndex(log, o)
  {
    assert (log + [e])[..|log|] == log;
  }

  /** The state before an opportunity's newest event is the state it had when that was logged. */
  lemma UndoReturns(log: seq<Event>, e: Event)
    ensures LastIndex(log + [e], e.opportunity) == |log| && (log + [e])[..|log|] == log
  {
  }

  lemma BuriedGrows(log: seq<Event>, e: Event, undone: set<string>)
    requires Buried(log, undone) && Lookup(log, e.id).None?
    ensures Buried(log + [e], undone)
  {
    forall id | id in undone ensures Lookup(log + [e], id).Some? {
      SnocQueries(log, e, id, e.opportunity);
    }
    forall i | 0 <= i < |log + [e]| && (log + [e])[i].id in undone
      ensures i < LastIndex(log + [e], (log + [e])[i].opportunity)
    {
      SnocQueries(log, e, e.id, (log + [e])[i].opportunity);
    }
  }

  /** Undoing an opportunity's last event buries it under the undo. */
  lemma UndoBuries(log: seq<Event>, i: nat, e: Event, undone: set<string>)
    requires Buried(log, undone) && Lookup(log, e.id).None? && DistinctIds(log)
    requires i < |log| && log[i].opportunity == e.opportunity && Lookup(log, log[i].id).Some?
    ensures Buried(log + [e], undone + {log[i].id})
  {
    BuriedGrows(log, e, undone);
    SnocQueries(log, e, log[i].id, e.opportunity);
    forall j | 0 <= j < |log + [e]| && (log + [e])[j].id == log[i].id
      ensures j < LastIndex(log + [e], (log + [e])[j].opportunity)
    {
      SnocQueries(log, e, e.id, log[i].opportunity);
      assert j == i;
    }
  }

  /** The last event appended is what the latest-activity query returns. */
  ghost predicate LastIsLatest(log: seq<Event>, opportunity: string) {
    var i := LastIndex(log, opportunity);
    i >= 0 && LatestFor(log, opportunity) == Some(log[i])
  }

  /** The clock assumption is needed. For every digest, two actions in one instant under keys with
      different digests, and the same actions with the keys swapped: in exactly one of the two
      runs the query passes over the action taken last, and that action cannot be undone. */
  method SameInstant(digest: string -> string, opportunity: string, first: Action, second: Action, now: Instant,
                     key: string, key': string)
      returns (one: Tracker, other: Tracker, undo: Option<Event>, undo': Option<Event>)
    requires 0 < |key| <= MAX_KEY && 0 < |key'| <= MAX_KEY
    requires digest(opportunity + ":" + key) != digest(opportunity + ":" + key')
    requires Target(first).Some? && Target(second).Some? && Undoable(second)
    requires Allowed(ToReview, Target(first).value) && Allowed(Target(first).value, Target(second).value)
    requires Target(first) != Target(second)
    ensures one.Valid() && other.Valid() && |one.log| == |other.log| == 2
    ensures LastIsLatest(one.log, opportunity) <==> !LastIsLatest(other.log, opportunity)
    ensures undo.Some? <==> LastIsLatest(one.log, opportunity)
    ensures undo'.Some? <==> LastIsLatest(other.log, opportunity)
  {
    one, undo := ActTwice(digest, opportunity, first, second, now, key, key');
    other, undo' := ActTwice(digest, opportunity, first, second, now, key', key);
    var a, b := EventId(digest, opportunity, key, first, now), EventId(digest, opportunity, key', second, now);
    SamePrefix("activity-", digest(opportunity + ":" + key), digest(opportunity + ":" + key'));
    Strings.LtAsymmetric(a, b);
    Strings.LeTotal(a, b);
  }

  /** Two actions in one instant on a fresh tracker, and the attempt to undo the second. */
  method ActTwice(digest: string -> string, opportunity: string, first: Action, second: Action, now: Instant,
                  key: string, key': string)
      returns (tracker: Tracker, undo: Option<Event>)
    requires 0 < |key| <= MAX_KEY && 0 < |key'| <= MAX_KEY
    requires digest(opportunity + ":" + key) != digest(opportunity + ":" + key')
    requires Target(first).Some? && Target(second).Some? && Undoable(second)
    requires Allowed(ToReview, Target(first).value) && Allowed(Target(first).value, Target(second).value)
    requires Target(first) != Target(second)
    ensures fresh(tracker) && tracker.Valid()
    ensures tracker.log == [
      Event(EventId(digest, opportunity, key, first, now), opportunity, first, Target(first), now.at),
      Event(EventId(digest, opportunity, key', second, now), opportunity, second, Target(second), now.at)]
    ensures LastIsLatest(tracker.log, opportunity) <==>
      Strings.Lt(EventId(digest, opportunity, key, first, now), EventId(digest, opportunity, key', second, now))
    ensures undo.Some? <==> LastIsLatest(tracker.log, opportunity)
  {
    hide Tracker.Core, Lookup, StateAfter, LastIndex, LatestWhere, LatestFor, Before, Strings.Lt;
    tracker := TwoActions(digest, opportunity, first, second, now, key, key');
    SamePrefix("activity-", digest(opportunity + ":" + key), digest(opportunity + ":" + key'));
    LatestOfTwo(tracker.log[0], tracker.log[1]);
    tracker.CoreDistinct();
    var refusal;
    undo, refusal := tracker.FindUndoable(opportunity, tracker.log[1].id);
  }

  method TwoActions(digest: string -> string, opportunity: string, first: Action, second: Action, now: Instant,
                    key: string, key': string)
      returns (tracker: Tracker)
    requires 0 < |key| <= MAX_KEY && 0 < |key'| <= MAX_KEY
    requires digest(opportunity + ":" + key) != digest(opportunity + ":" + key')
    requires Target(first).Some? && Target(second).Some? && Target(first) != Target(second)
    requires Allowed(ToReview, Target(first).value) && Allowed(Target(first).value, Target(second).value)
    ensures fresh(tracker) && tracker.Valid()
    ensures tracker.log == [
      Event(EventId(digest, opportunity, key, first, now), opportunity, first, Target(first), now.at),
      Event(EventId(digest, opportunity, key', second, now), opportunity, second, Target(second), now.at)]
  {
    hide Tracker.Valid, EventId, Lookup;
    ghost var x := Event(EventId(digest, opportunity, key, first, now), opportunity, first, Target(first), now.at);
    IdsDiffer(digest, opportunity, first, second, now, key, key');
    tracker := new Tracker(digest, {opportunity});
    LookupOne(x, EventId(digest, opportunity, key', second, now));
    tracker.Advance(opportunity, first, now, key);
    assert tracker.log == [x];
    tracker.Advance(opportunity, second, now, key');
  }

  lemma LookupOne(x: Event, id: string)
    ensures Lookup([], x.id).None? && Lookup([], id).None?
    ensures x.id != id ==> Lookup([x], id).None?
  {
    assert [x][..0] == [];
  }

  lemma IdsDiffer(digest: string -> string, opportunity: string, first: Action, second: Action, now: Instant,
                  key: string, key': string)
    requires key != "" && key' != "" && digest(opportunity + ":" + key) != digest(opportunity + ":" + key')
    ensures EventId(digest, opportunity, key, first, now) != EventId(digest, opportunity, key', second, now)
  {
    SamePrefix("activity-", digest(opportunity + ":" + key), digest(opportunity + ":" + key'));
  }

}
