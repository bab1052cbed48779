/** inbox/models.py and inbox/pipeline.py: pipeline events and the replay that derives
    an opportunity's stage from them. A sha256 identity is modelled by the value that
    was hashed, so it is injective by construction. */
module Pipeline {
  import opened Wrappers
  import Strings
  import Sorting

  datatype Track = Employment | Contract | Freelance | Procurement | Tutoring

  datatype Category =
    | ApplicationConfirmation | Rejection | RecruiterOutreach | Assessment | InterviewRequest
    | Offer | InformationRequest
    | ProposalConfirmation | ClientOrBuyerResponse | ClarificationRequest | ShortlistOrInvitation
    | DiscoveryCallOrMeetingRequest | ProposalRejection | AwardOrWin | ContractProgress
    | ProcurementAmendment | ProcurementDeadlineChange
    | Marketing | GenericPlatformNotification | Unclassified

  datatype Stage =
    | Discovered | Qualified | Applied | InReview | AssessmentScheduled | Interviewing
    | OfferReceived | Awarded | Rejected | ClosedUnresponsive | Withdrawn | ReviewRequired | NoEvents

  /** The fields `InboundMessageEvidence.__post_init__` hashes. */
  datatype Content = Content(
    provider: string, providerMessageId: string, threadId: string, sender: string,
    recipient: string, subject: string, receivedAt: string, body: string)

  datatype ContentHash = Sha256(content: Content)

  datatype SignalId = SignalId(hash: ContentHash, category: Category, track: Track)

  datatype Event = Event(
    id: string, opportunity: string, signal: SignalId, previous: Stage, next: Stage, track: Track,
    category: Category, hash: ContentHash, occurredAt: string, recordedAt: string, notes: string)

  datatype DerivedState = DerivedState(
    stage: Stage, latestEventId: string, lastCategory: Option<Category>, lastAt: string,
    actionRequired: bool, actionSummary: string, eventCount: nat)

  function NextStage(current: Stage, category: Category): Stage {
    if category in {Offer, AwardOrWin} then
      if category == Offer then OfferReceived else Awarded
    else if category in {InterviewRequest, DiscoveryCallOrMeetingRequest, ShortlistOrInvitation} then
      Interviewing
    else if category in {Assessment, ClarificationRequest} then
      AssessmentScheduled
    else if category in {RecruiterOutreach, ClientOrBuyerResponse, InformationRequest} then
      InReview
    else if Confirms(category) then
      if current in {Discovered, NoEvents} then Applied else current
    else if category in {Rejection, ProposalRejection} then
      Rejected
    else
      current
  }

  predicate Confirms(category: Category) {
    category in {ApplicationConfirmation, ProposalConfirmation}
  }

  predicate DemandsAction(category: Category) {
    category in {InterviewRequest, Assessment, DiscoveryCallOrMeetingRequest, ClarificationRequest,
                 Offer, AwardOrWin}
  }

  /** `(occurred_at, recorded_at, event_id)`, ascending. */
  predicate EventLe(a: Event, b: Event) {
    if a.occurredAt != b.occurredAt then Strings.Le(a.occurredAt, b.occurredAt)
    else if a.recordedAt != b.recordedAt then Strings.Le(a.recordedAt, b.recordedAt)
    else Strings.Le(a.id, b.id)
  }

  /** One turn of the replay loop. */
  function Advance(d: DerivedState, e: Event): DerivedState {
    DerivedState(
      NextStage(d.stage, e.category), e.id, Some(e.category), e.occurredAt,
      d.actionRequired || DemandsAction(e.category),
      if DemandsAction(e.category) then e.notes else d.actionSummary,
      d.eventCount + 1)
  }

  function Start(initial: Stage): DerivedState {
    DerivedState(initial, "", None, "", false, "", 0)
  }

  function Fold(sorted: seq<Event>, initial: Stage): DerivedState {
    if sorted == [] then Start(initial)
    else Advance(Fold(sorted[..|sorted| - 1], initial), sorted[|sorted| - 1])
  }

  function Ordered(events: seq<Event>): (r: seq<Event>)
    ensures multiset(r) == multiset(events) && |r| == |events|
  {
    Sorting.Sort(events, EventLe)
  }

  function Replay(events: seq<Event>, initial: Stage): DerivedState {
    Fold(Ordered(events), initial)
  }

  /** inbox/pipeline.py:53-102. */
  method ReplayEvents(events: seq<Event>, initial: Stage) returns (d: DerivedState)
    ensures d == Replay(events, initial)
  {
    d := Start(initial);
    if events == [] { return; }
    var sorted := Ordered(events);
    for i := 0 to |sorted|
      invariant d == Fold(sorted[..i], initial)
    {
      var e := sorted[i];
      d := d.(stage := NextStage(d.stage, e.category), latestEventId := e.id,
              lastCategory := Some(e.category), lastAt := e.occurredAt, eventCount := d.eventCount + 1);
      if DemandsAction(e.category) {
        d := d.(actionRequired := true, actionSummary := e.notes);
      }
      assert sorted[..i + 1][..i] == sorted[..i];
    }
    assert sorted[..|sorted|] == sorted;
  }

  // ----- replay order -----

  lemma EventLePreorder()
    ensures Sorting.Preorder(EventLe)
  {
    forall a: Event, b: Event ensures EventLe(a, b) || EventLe(b, a) {
      Strings.LeTotal(a.occurredAt, b.occurredAt);
      Strings.LeTotal(a.recordedAt, b.recordedAt);
      Strings.LeTotal(a.id, b.id);
    }
    forall a: Event, b: Event, c: Event | EventLe(a, b) && EventLe(b, c) ensures EventLe(a, c) {
      EventLeTransitive(a, b, c);
    }
  }

  lemma LexStep(a: string, b: string, c: string)
    requires Strings.Le(a, b) && Strings.Le(b, c)
    ensures Strings.Le(a, c) && (a == c ==> a == b == c)
  {
    Strings.LeTransitive(a, b, c);
    if a == c {
      Strings.LeAntisymmetric(a, b);
    }
  }

  lemma EventLeTransitive(a: Event, b: Event, c: Event)
    requires EventLe(a, b) && EventLe(b, c)
    ensures EventLe(a, c)
  {
    LeReflexive(a.occurredAt);
    LeReflexive(c.occurredAt);
    LeReflexive(a.recordedAt);
    LeReflexive(c.recordedAt);
    LexStep(a.occurredAt, b.occurredAt, c.occurredAt);
    if a.occurredAt == c.occurredAt {
      LexStep(a.recordedAt, b.recordedAt, c.recordedAt);
      if a.recordedAt == c.recordedAt {
        LexStep(a.id, b.id, c.id);
      }
    }
  }

  lemma LeReflexive(a: string)
    ensures Strings.Le(a, a)
  {
    Strings.LeTotal(a, a);
  }

  /** The order of replay, component by component. */
  lemma EventOrder(a: Event, b: Event)
    ensures EventLe(a, b) <==>
      || Strings.Lt(a.occurredAt, b.occurredAt)
      || (a.occurredAt == b.occurredAt
          && (Strings.Lt(a.recordedAt, b.recordedAt) || (a.recordedAt == b.recordedAt && Strings.Le(a.id, b.id))))
  {
  }

  ghost predicate DistinctIds(events: seq<Event>) {
    forall i, j :: 0 <= i < j < |events| ==> events[i].id != events[j].id
  }

  lemma DistinctIdsSeparate(events: seq<Event>)
    requires DistinctIds(events)
    ensures Sorting.Separates(events, EventLe)
  {
    forall x, y | x in events && y in events && EventLe(x, y) && EventLe(y, x) ensures x == y {
      if x.occurredAt != y.occurredAt {
        Strings.LeAntisymmetric(x.occurredAt, y.occurredAt);
      } else if x.recordedAt != y.recordedAt {
        Strings.LeAntisymmetric(x.recordedAt, y.recordedAt);
      } else {
        Strings.LeAntisymmetric(x.id, y.id);
      }
    }
  }

  /** The derived state does not depend on the order the events are supplied in. */
  lemma ReplayPermutation(a: seq<Event>, b: seq<Event>, initial: Stage)
    requires DistinctIds(a) && multiset(a) == multiset(b)
    ensures Replay(a, initial) == Replay(b, initial)
  {
    EventLePreorder();
    DistinctIdsSeparate(a);
    Sorting.SortPermutation(a, b, EventLe);
  }

  // ----- what the replayed stage means -----

  /** The stage a category dictates whatever came before, if it dictates one. */
  function Dictates(category: Category): Option<Stage> {
    match category
    case Offer => Some(OfferReceived)
    case AwardOrWin => Some(Awarded)
    case InterviewRequest => Some(Interviewing)
    case DiscoveryCallOrMeetingRequest => Some(Interviewing)
    case ShortlistOrInvitation => Some(Interviewing)
    case Assessment => Some(AssessmentScheduled)
    case ClarificationRequest => Some(AssessmentScheduled)
    case RecruiterOutreach => Some(InReview)
    case ClientOrBuyerResponse => Some(InReview)
    case InformationRequest => Some(InReview)
    case Rejection => Some(Rejected)
    case ProposalRejection => Some(Rejected)
    case _ => None
  }

  /** `i` is the last event, in replay order, whose category dictates a stage. */
  ghost predicate LastDictating(sorted: seq<Event>, i: int) {
    0 <= i < |sorted| && Dictates(sorted[i].category).Some?
    && forall j :: i < j < |sorted| ==> Dictates(sorted[j].category).None?
  }

  /** The last stage-setting event decides the replayed stage. */
  lemma {:induction false} LastDictatingDecides(sorted: seq<Event>, initial: Stage, i: nat)
    requires LastDictating(sorted, i)
    ensures Fold(sorted, initial).stage == Dictates(sorted[i].category).value
  {
    var n := |sorted| - 1;
    if i < n {
      hide Fold, Dictates;
      LastDictatingDecides(sorted[..n], initial, i);
      DictatedIsDefinite(sorted[i].category);
      FoldLast(sorted, initial);
      UndictatedStays(Fold(sorted[..n], initial), sorted[n]);
    } else {
      DictatedStage(Fold(sorted[..n], initial), sorted[n]);
    }
  }

  lemma FoldLast(sorted: seq<Event>, initial: Stage)
    requires sorted != []
    ensures Fold(sorted, initial) == Advance(Fold(sorted[..|sorted| - 1], initial), sorted[|sorted| - 1])
  {
  }

  /** A dictating event sets the stage it dictates. */
  lemma DictatedStage(d: DerivedState, e: Event)
    ensures Dictates(e.category).Some? ==> Advance(d, e).stage == Dictates(e.category).value
  {
  }

  /** Any other event leaves every stage but the two that a confirmation lifts. */
  lemma UndictatedStays(d: DerivedState, e: Event)
    ensures Dictates(e.category).None? && d.stage !in {Discovered, NoEvents} ==> Advance(d, e).stage == d.stage
  {
  }

  lemma DictatedIsDefinite(category: Category)
    ensures Dictates(category).Some? ==> Dictates(category).value !in {Discovered, NoEvents}
  {
  }

  predicate NoneDictates(sorted: seq<Event>) {
    forall i :: 0 <= i < |sorted| ==> Dictates(sorted[i].category).None?
  }

  predicate SomeConfirms(sorted: seq<Event>) {
    exists i :: 0 <= i < |sorted| && sorted[i].category in {ApplicationConfirmation, ProposalConfirmation}
  }

  /** With no stage-setting event, a confirmation lifts an opportunity nobody has applied
      to, and nothing else moves it. */
  lemma {:induction false} ConfirmationRule(sorted: seq<Event>, initial: Stage)
    requires NoneDictates(sorted)
    ensures Fold(sorted, initial).stage ==
      if initial in {Discovered, NoEvents} && SomeConfirms(sorted) then Applied else initial
  {
    if sorted != [] {
      var n := |sorted| - 1;
      var init := sorted[..n];
      assert forall j :: 0 <= j < n ==> init[j] == sorted[j];
      ConfirmationRule(init, initial);
      assert SomeConfirms(sorted) <==> SomeConfirms(init) || Confirms(sorted[n].category) by {
        if SomeConfirms(init) {
          var i :| 0 <= i < n && init[i].category in {ApplicationConfirmation, ProposalConfirmation};
          assert sorted[i].category in {ApplicationConfirmation, ProposalConfirmation};
        }
      }
    }
  }

  /** Closed form of `replay_events`' stage, for every set of events. */
  lemma ReplayClosedForm(events: seq<Event>, initial: Stage)
    ensures NoneDictates(Ordered(events)) ==>
      Replay(events, initial).stage == (
        if initial in {Discovered, NoEvents} && SomeConfirms(events) then Applied else initial)
    ensures forall i :: LastDictating(Ordered(events), i) ==>
      Replay(events, initial).stage == Dictates(Ordered(events)[i].category).value
  {
    var s := Ordered(events);
    if NoneDictates(s) {
      ConfirmationRule(s, initial);
      Sorting.SortMembers(events, EventLe);
      if SomeConfirms(events) {
        var i :| 0 <= i < |events| && events[i].category in {ApplicationConfirmation, ProposalConfirmation};
        assert events[i] in s;
      }
      if SomeConfirms(s) {
        var i :| 0 <= i < |s| && s[i].category in {ApplicationConfirmation, ProposalConfirmation};
        assert s[i] in events;
      }
    }
    forall i | LastDictating(s, i) ensures Fold(s, initial).stage == Dictates(s[i].category).value {
      LastDictatingDecides(s, initial, i);
    }
  }

  /** The stage `record_signal_event` starts from: nothing recorded reads as applied. */
  function StageOrApplied(stage: Stage): Stage {
    if stage == NoEvents then Applied else stage
  }

  ghost predicate SortsAfterAll(events: seq<Event>, e: Event) {
    forall x :: x in events ==> EventLe(x, e) && !EventLe(e, x)
  }

  lemma SortsLast(events: seq<Event>, e: Event)
    requires SortsAfterAll(events, e) && DistinctIds(events)
    ensures Ordered(events + [e]) == Ordered(events) + [e]
  {
    EventLePreorder();
    var a, b := Ordered(events + [e]), Ordered(events) + [e];
    Sorting.SortSorted(events, EventLe);
    Sorting.SortSorted(events + [e], EventLe);
    Sorting.SortMembers(events, EventLe);
    assert Sorting.Sorted(b, EventLe);
    DistinctIdsSeparate(events);
    assert Sorting.Separates(b, EventLe) by {
      forall x, y | x in b && y in b && EventLe(x, y) && EventLe(y, x) ensures x == y {
        assert x in events || x == e;
        assert y in events || y == e;
      }
    }
    Sorting.SortedUnique(b, a, EventLe);
  }

  /** A newly recorded event that sorts last stores exactly the stage a later replay derives. */
  lemma RecordedStageIsReplayedStage(events: seq<Event>, e: Event)
    requires DistinctIds(events) && SortsAfterAll(events, e)
    requires e.next == NextStage(StageOrApplied(Replay(events, NoEvents).stage), e.category)
    ensures e.next == StageOrApplied(Replay(events + [e], NoEvents).stage)
  {
    SortsLast(events, e);
    FoldSnoc(Ordered(events), e);
    ReplayNeverDiscovered(Ordered(events));
    AppliedStandsIn(Replay(events, NoEvents).stage, e.category);
  }

  lemma FoldSnoc(sorted: seq<Event>, e: Event)
    ensures Fold(sorted + [e], NoEvents).stage == NextStage(Fold(sorted, NoEvents).stage, e.category)
  {
    assert (sorted + [e])[..|sorted|] == sorted;
  }

  /** Reading "no events" as "applied" before or after a step gives the same stage. */
  lemma AppliedStandsIn(stage: Stage, category: Category)
    requires stage != Discovered
    ensures NextStage(StageOrApplied(stage), category) == StageOrApplied(NextStage(stage, category))
  {
  }

  lemma {:induction false} ReplayNeverDiscovered(sorted: seq<Event>)
    ensures Fold(sorted, NoEvents).stage != Discovered
  {
    if sorted != [] {
      ReplayNeverDiscovered(sorted[..|sorted| - 1]);
    }
  }

  // ----- the latest event decides -----

  lemma {:induction false} LastDictatingExists(sorted: seq<Event>, k: nat) returns (i: nat)
    requires k < |sorted| && Dictates(sorted[k].category).Some?
    ensures LastDictating(sorted, i) && k <= i
  {
    hide Dictates;
    var n := |sorted| - 1;
    if Dictates(sorted[n].category).Some? {
      i := n;
    } else {
      i := LastDictatingExists(sorted[..n], k);
    }
  }

  /** Of the events that set a stage, the one that occurred last decides, whatever the order in
      which they were recorded or supplied. */
  lemma LatestEventDecides(events: seq<Event>, e: Event, initial: Stage)
    requires e in events && Dictates(e.category).Some?
    requires forall x :: x in events && x != e && Dictates(x.category).Some? ==> Strings.Lt(x.occurredAt, e.occurredAt)
    ensures Replay(events, initial).stage == Dictates(e.category).value
  {
    hide Dictates, Sorting.Sort, Strings.Le;
    var s := Ordered(events);
    Sorting.SortMembers(events, EventLe);
    EventLePreorder();
    Sorting.SortSorted(events, EventLe);
    assert e in s;
    var k :| 0 <= k < |s| && s[k] == e;
    var i := LastDictatingExists(s, k);
    if s[i] != e {
      assert s[i] in events;
      Strings.LtAsymmetric(s[i].occurredAt, e.occurredAt);
      EventOrder(e, s[i]);
    }
    assert s[i] == e;
    LastDictatingDecides(s, initial, i);
  }

  // ----- what else a replay reports -----

  /** The event asks the founder to act. */
  ghost predicate Pressing(e: Event) {
    e.category in {InterviewRequest, Assessment, DiscoveryCallOrMeetingRequest, ClarificationRequest, Offer, AwardOrWin}
  }

  ghost predicate LastPressing(sorted: seq<Event>, i: int) {
    0 <= i < |sorted| && Pressing(sorted[i]) && forall j :: i < j < |sorted| ==> !Pressing(sorted[j])
  }

  lemma PressingIff(e: Event)
    ensures DemandsAction(e.category) <==> Pressing(e)
  {
  }

  lemma {:induction false} FoldCounts(sorted: seq<Event>, initial: Stage)
    ensures var d := Fold(sorted, initial);
      && d.eventCount == |sorted|
      && (sorted != [] ==> var e := sorted[|sorted| - 1];
           d.latestEventId == e.id && d.lastCategory == Some(e.category) && d.lastAt == e.occurredAt)
  {
    if sorted != [] {
      hide NextStage, DemandsAction;
      FoldCounts(sorted[..|sorted| - 1], initial);
    }
  }

  ghost predicate AnyPressing(sorted: seq<Event>) {
    exists i :: 0 <= i < |sorted| && Pressing(sorted[i])
  }

  lemma AnyPressingSnoc(sorted: seq<Event>)
    requires sorted != []
    ensures var n := |sorted| - 1; AnyPressing(sorted) <==> AnyPressing(sorted[..n]) || Pressing(sorted[n])
  {
    hide Pressing;
    var n := |sorted| - 1;
    if i :| 0 <= i < n && Pressing(sorted[..n][i]) {
      assert Pressing(sorted[i]);
    }
    if i :| 0 <= i < |sorted| && Pressing(sorted[i]) {
      assert i < n ==> Pressing(sorted[..n][i]);
    }
  }

  lemma {:induction false} FoldAction(sorted: seq<Event>, initial: Stage)
    ensures Fold(sorted, initial).actionRequired <==> AnyPressing(sorted)
  {
    if sorted != [] {
      var n := |sorted| - 1;
      AnyPressingSnoc(sorted);
      PressingIff(sorted[n]);
      hide NextStage, DemandsAction, Pressing, AnyPressing;
      FoldAction(sorted[..n], initial);
    }
  }

  lemma {:induction false} FoldSummary(sorted: seq<Event>, initial: Stage, i: nat)
    requires LastPressing(sorted, i)
    ensures Fold(sorted, initial).actionSummary == sorted[i].notes
  {
    hide NextStage, DemandsAction, Pressing;
    var n := |sorted| - 1;
    PressingIff(sorted[n]);
    if i < n {
      FoldSummary(sorted[..n], initial, i);
    }
  }

  lemma NothingReplayed(initial: Stage)
    ensures Replay([], initial) == DerivedState(initial, "", None, "", false, "", 0)
  {
  }

  /** A replay counts every event, asks for action exactly if some event does, with the words of
      the last one that does, and reports the last event. */
  lemma ReplayReports(events: seq<Event>, initial: Stage)
    ensures var s, d := Ordered(events), Replay(events, initial);
      && d.eventCount == |events|
      && (d.actionRequired <==> exists e :: e in events && Pressing(e))
      && (forall i :: LastPressing(s, i) ==> d.actionSummary == s[i].notes)
      && (events != [] ==> d.latestEventId == s[|s| - 1].id && d.lastAt == s[|s| - 1].occurredAt)
      && (events == [] ==> d == DerivedState(initial, "", None, "", false, "", 0))
  {
    hide Fold, Pressing, EventLe;
    var s := Ordered(events);
    FoldCounts(s, initial);
    FoldAction(s, initial);
    forall i | LastPressing(s, i) ensures Fold(s, initial).actionSummary == s[i].notes {
      FoldSummary(s, initial, i);
    }
    Sorting.SortMembers(events, EventLe);
    NothingReplayed(initial);
    if i :| 0 <= i < |s| && Pressing(s[i]) {
      assert s[i] in events;
    }
    if e :| e in events && Pressing(e) {
      assert e in s;
    }
  }
}
