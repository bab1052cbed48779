/** What a sequential pass stores, in the terms of the mailbox alone: which reconciliations,
    events and notifications there are, what each says, and how the stages of an opportunity's
    events follow from one another (inbox/orchestrator.py:88-112, inbox/pipeline.py:116-139,
    inbox/notifications.py:34-56). */
module InboxMeaning {
  import opened Wrappers
  import opened Pipeline
  import opened InboxEffects
  import Strings
  import Sorting

  /** The correlator authoritatively names this opportunity. */
  ghost predicate LinksTo(w: World, m: Message, opportunity: string) {
    w.correlate(m.content).authoritative && w.correlate(m.content).opportunity == Some(opportunity) && opportunity != ""
  }

  /** No earlier message has this one's content. */
  ghost predicate Earliest(mailbox: seq<Message>, i: int)
    requires 0 <= i < |mailbox|
  {
    forall j :: 0 <= j < i ==> mailbox[j].content != mailbox[i].content
  }

  lemma EarliestPrefix(mailbox: seq<Message>, n: nat, i: nat)
    requires i < n <= |mailbox|
    ensures Earliest(mailbox[..n], i) <==> Earliest(mailbox, i)
  {
    assert forall j :: 0 <= j < n ==> mailbox[..n][j] == mailbox[j];
  }

  lemma SeenBefore(w: World, mailbox: seq<Message>, n: nat)
    requires n < |mailbox| && !Earliest(mailbox, n)
    ensures Present(w, Pass(w, mailbox[..n]), mailbox[n])
  {
    var j :| 0 <= j < n && mailbox[j].content == mailbox[n].content;
    assert mailbox[..n][j].Hash() in Hashes(mailbox[..n]);
    PassPresent(w, mailbox[..n], mailbox[n]);
  }

  lemma PassFields(w: World, mailbox: seq<Message>)
    requires mailbox != []
    ensures var n := |mailbox| - 1; var t := Pass(w, mailbox[..n]);
      Pass(w, mailbox) == Tables(Reconcile(w, t, mailbox[n]).reconciliations, Record(w, t, mailbox[n]).events,
                                 Notify(w, t, mailbox[n]).notifications)
  {
    var n := |mailbox| - 1;
    PartlyFields(w, Pass(w, mailbox[..n]), mailbox[n], 3);
  }

  // ----- reconciliations -----

  /** `m` confirms an application through `a`: the first outbound action recorded for the linked
      opportunity, whose outcome is unknown. */
  ghost predicate Confirmed(w: World, m: Message, a: OutboundAction) {
    && LinksTo(w, m, a.opportunity) && a.unknownOutcome
    && w.read(m.content).category in {ApplicationConfirmation, ProposalConfirmation}
    && exists k :: 0 <= k < |w.actions| && w.actions[k] == a && FirstFor(w.actions, k)
  }

  ghost predicate FirstFor(actions: seq<OutboundAction>, k: int)
    requires 0 <= k < |actions|
  {
    forall b :: 0 <= b < k ==> actions[b].opportunity != actions[k].opportunity
  }

  lemma {:induction false} FirstActionIs(actions: seq<OutboundAction>, opportunity: string, a: OutboundAction)
    ensures FirstAction(actions, opportunity) == Some(a) <==>
      a.opportunity == opportunity && exists k :: 0 <= k < |actions| && actions[k] == a && FirstFor(actions, k)
  {
    if actions != [] {
      var rest := actions[1..];
      FirstActionIs(rest, opportunity, a);
      if actions[0].opportunity == opportunity {
        if k :| 0 <= k < |actions| && actions[k] == a && FirstFor(actions, k) {
          assert a.opportunity == opportunity ==> k == 0;
        }
        assert FirstFor(actions, 0);
      } else {
        if k :| 0 <= k < |rest| && rest[k] == a && FirstFor(rest, k) {
          if a.opportunity == opportunity {
            assert actions[k + 1] == a && FirstFor(actions, k + 1);
          }
        }
        if k :| 0 <= k < |actions| && actions[k] == a && FirstFor(actions, k) {
          if a.opportunity == opportunity {
            assert rest[k - 1] == a && FirstFor(rest, k - 1);
          }
        }
      }
    }
  }

  lemma ConfirmedIff(w: World, m: Message, a: OutboundAction)
    ensures ToReconcile(w, m) == Some(a) <==> Confirmed(w, m, a)
  {
    hide FirstAction;
    FirstActionIs(w.actions, a.opportunity, a);
    if Linked(w, m).Some? {
      FirstActionIs(w.actions, Linked(w, m).value, a);
    }
  }

  ghost predicate ReconciliationDue(w: World, m: Message, key: ReconciliationId) {
    exists a :: Confirmed(w, m, a)
      && key == ReconciliationId(a.id, SignalId(Sha256(m.content), w.read(m.content).category, w.read(m.content).track))
  }

  lemma DueIff(w: World, m: Message, key: ReconciliationId)
    ensures ReconciliationDue(w, m, key) <==> ToReconcile(w, m).Some? && ReconciliationKey(w, m) == key
  {
    hide ToReconcile, Confirmed;
    if ToReconcile(w, m).Some? {
      ConfirmedIff(w, m, ToReconcile(w, m).value);
    }
    forall a ensures ToReconcile(w, m) == Some(a) <==> Confirmed(w, m, a) {
      ConfirmedIff(w, m, a);
    }
  }

  /** What a reconciliation with this key says: everything is in the key. */
  ghost predicate ReconciliationSays(w: World, key: ReconciliationId, row: Reconciliation) {
    var content := key.signal.hash.content;
    row.action == key.action && row.signal == key.signal && row.hash == key.signal.hash
    && Some(row.opportunity) == w.correlate(content).opportunity && row.createdAt == content.receivedAt
  }

  /** There is a reconciliation exactly for each message that confirms an action with unknown
      outcome. */
  lemma {:induction false} ReconciliationsExactly(w: World, mailbox: seq<Message>, key: ReconciliationId)
    ensures key in Pass(w, mailbox).reconciliations <==>
      exists i :: 0 <= i < |mailbox| && ReconciliationDue(w, mailbox[i], key)
    ensures key in Pass(w, mailbox).reconciliations ==>
      ReconciliationSays(w, key, Pass(w, mailbox).reconciliations[key])
  {
    if mailbox != [] {
      hide ReconciliationDue, ToReconcile, Pass;
      var n := |mailbox| - 1;
      ReconciliationsExactly(w, mailbox[..n], key);
      PassFields(w, mailbox);
      DueIff(w, mailbox[n], key);
      DueSays(w, mailbox[n]);
      SomeMessage(mailbox, i => ReconciliationDue(w, i, key));
    }
  }

  lemma DueSays(w: World, m: Message)
    ensures ToReconcile(w, m).Some? ==> ReconciliationSays(w, ReconciliationKey(w, m), ReconciliationRow(w, m))
  {
    if ToReconcile(w, m).Some? {
      ConfirmedIff(w, m, ToReconcile(w, m).value);
    }
  }

  /** Something holds of a message of the mailbox: of the last, or of an earlier one. */
  lemma SomeMessage(mailbox: seq<Message>, p: Message -> bool)
    requires mailbox != []
    ensures var n := |mailbox| - 1;
      (exists i :: 0 <= i < |mailbox| && p(mailbox[i])) <==>
      (exists i :: 0 <= i < n && p(mailbox[..n][i])) || p(mailbox[n])
  {
    var n := |mailbox| - 1;
    if i :| 0 <= i < n && p(mailbox[..n][i]) {
      assert p(mailbox[i]);
    }
    if i :| 0 <= i < |mailbox| && p(mailbox[i]) {
      assert i < n ==> p(mailbox[..n][i]);
    }
  }

  // ----- notifications -----

  ghost predicate NotificationDue(w: World, m: Message, key: NotificationKey) {
    var r := w.read(m.content);
    && (r.priority in {Urgent, High, Medium} || r.requiresAction)
    && key == NotificationKey(w.workspace, w.candidate, SignalId(Sha256(m.content), r.category, r.track), r.category)
  }

  /** What a notification with this key says; only the summary needs the message itself. */
  ghost predicate NotificationSays(w: World, key: NotificationKey, n: Notification) {
    var content := key.signal.hash.content;
    var r, c := w.read(content), w.correlate(content);
    && n.signal == key.signal && n.priority == r.priority && n.category == r.category == key.category
    && n.actionRequired == r.requiresAction && n.deadline == r.deadline && n.createdAt == content.receivedAt
    && n.opportunity == (if c.authoritative then c.opportunity else None)
    && !n.acknowledged && n.acknowledgedAt.None?
  }

  /** The summary is that of the earliest message with the content. */
  ghost predicate SummaryOf(w: World, mailbox: seq<Message>, content: Content, text: string) {
    exists i :: 0 <= i < |mailbox| && mailbox[i].content == content && Earliest(mailbox, i)
      && text == w.summarize(mailbox[i])
  }

  lemma SummaryPrefix(w: World, mailbox: seq<Message>, content: Content, text: string)
    requires mailbox != [] && SummaryOf(w, mailbox[..|mailbox| - 1], content, text)
    ensures SummaryOf(w, mailbox, content, text)
  {
    var n := |mailbox| - 1;
    var i :| 0 <= i < n && mailbox[..n][i].content == content && Earliest(mailbox[..n], i)
      && text == w.summarize(mailbox[..n][i]);
    EarliestPrefix(mailbox, n, i);
    assert mailbox[i] == mailbox[..n][i];
  }

  /** There is a notification exactly for each message that is urgent, high or medium, or that
      asks for action. */
  lemma {:induction false} NotificationsExactly(w: World, mailbox: seq<Message>, key: NotificationKey)
    ensures key in Pass(w, mailbox).notifications <==>
      exists i :: 0 <= i < |mailbox| && NotificationDue(w, mailbox[i], key)
    ensures key in Pass(w, mailbox).notifications ==>
      && NotificationSays(w, key, Pass(w, mailbox).notifications[key])
      && SummaryOf(w, mailbox, key.signal.hash.content, Pass(w, mailbox).notifications[key].message)
  {
    if mailbox != [] {
      hide NotificationDue, NotificationSays, SummaryOf, Pass;
      var n := |mailbox| - 1;
      var t := Pass(w, mailbox[..n]);
      NotificationsExactly(w, mailbox[..n], key);
      PassFields(w, mailbox);
      NotifyIff(w, mailbox[n], key);
      SomeMessage(mailbox, m => NotificationDue(w, m, key));
      if key in t.notifications {
        SummaryPrefix(w, mailbox, key.signal.hash.content, t.notifications[key].message);
      } else {
        NewSummary(w, mailbox, key);
      }
    }
  }

  lemma NotifyIff(w: World, m: Message, key: NotificationKey)
    ensures NotificationDue(w, m, key) <==> Notifies(w, m) && NoteKey(w, m) == key
    ensures NotificationSays(w, NoteKey(w, m), NoteRow(w, m))
  {
    var p := w.read(m.content).priority;
    assert p in {Urgent, High, Medium} <==> p !in {Low, Noise} by {
      match p case Urgent => case High => case Medium => case Low => case Noise =>
    }
  }

  /** A new notification's message is the first with its content. */
  lemma NewSummary(w: World, mailbox: seq<Message>, key: NotificationKey)
    requires mailbox != [] && key !in Pass(w, mailbox[..|mailbox| - 1]).notifications
    ensures var m := mailbox[|mailbox| - 1];
      Notifies(w, m) && NoteKey(w, m) == key ==> SummaryOf(w, mailbox, m.content, NoteRow(w, m).message)
  {
    hide Pass;
    var n := |mailbox| - 1;
    if Notifies(w, mailbox[n]) && NoteKey(w, mailbox[n]) == key {
      if !Earliest(mailbox, n) {
        SeenBefore(w, mailbox, n);
      }
      assert Earliest(mailbox, n);
    }
  }

  // ----- events -----

  /** `e` records message `m`. */
  ghost predicate Records(w: World, m: Message, e: Event) {
    var r := w.read(m.content);
    && LinksTo(w, m, e.opportunity) && e.signal == SignalId(Sha256(m.content), r.category, r.track)
    && e.id == w.eventId(e.signal, e.opportunity) && e.hash == Sha256(m.content)
    && e.category == r.category && e.track == r.track
    && e.occurredAt == m.content.receivedAt && e.recordedAt == m.content.receivedAt && e.notes == w.summarize(m)
  }

  ghost predicate Recorded(w: World, mailbox: seq<Message>, e: Event) {
    exists i :: 0 <= i < |mailbox| && Earliest(mailbox, i) && Records(w, mailbox[i], e)
  }

  lemma EventRowRecords(w: World, events: seq<Event>, m: Message)
    requires Linked(w, m).Some?
    ensures Records(w, m, EventRow(w, events, m))
  {
    hide Replay;
  }

  lemma RecordedPrefix(w: World, mailbox: seq<Message>, e: Event)
    requires mailbox != [] && Recorded(w, mailbox[..|mailbox| - 1], e)
    ensures Recorded(w, mailbox, e)
  {
    var n := |mailbox| - 1;
    var i :| 0 <= i < n && Earliest(mailbox[..n], i) && Records(w, mailbox[..n][i], e);
    EarliestPrefix(mailbox, n, i);
    assert mailbox[i] == mailbox[..n][i];
  }

  /** Every event records a message, the earliest with its content... */
  lemma {:induction false} EventsRecorded(w: World, mailbox: seq<Message>)
    ensures forall e :: e in Pass(w, mailbox).events ==> Recorded(w, mailbox, e)
  {
    if mailbox != [] {
      hide Pass, Recorded, Records, EventRow;
      var n := |mailbox| - 1;
      var m, t := mailbox[n], Pass(w, mailbox[..n]);
      EventsRecorded(w, mailbox[..n]);
      PassFields(w, mailbox);
      forall e | e in Pass(w, mailbox).events ensures Recorded(w, mailbox, e) {
        if e in t.events {
          RecordedPrefix(w, mailbox, e);
        } else {
          NewEventRecorded(w, mailbox);
        }
      }
    }
  }

  lemma NewEventRecorded(w: World, mailbox: seq<Message>)
    requires mailbox != []
    ensures var n := |mailbox| - 1; var t := Pass(w, mailbox[..n]);
      Linked(w, mailbox[n]).Some? && !HasEvent(t.events, EventKey(w, mailbox[n])) ==>
      Earliest(mailbox, n) && Recorded(w, mailbox, EventRow(w, t.events, mailbox[n]))
  {
    hide Pass, EventRow, Records;
    var n := |mailbox| - 1;
    var t := Pass(w, mailbox[..n]);
    if Linked(w, mailbox[n]).Some? && !HasEvent(t.events, EventKey(w, mailbox[n])) {
      if !Earliest(mailbox, n) {
        SeenBefore(w, mailbox, n);
      }
      EventRowRecords(w, t.events, mailbox[n]);
    }
  }

  /** ... and every authoritatively linked message is recorded. */
  lemma EventsComplete(w: World, mailbox: seq<Message>, i: nat, opportunity: string)
    requires InjectiveEventIds(w) && i < |mailbox| && LinksTo(w, mailbox[i], opportunity)
    ensures var hash := Sha256(mailbox[i].content);
      exists e :: e in Pass(w, mailbox).events && e.opportunity == opportunity && e.hash == hash
  {
    assert mailbox[i].Hash() in Hashes(mailbox);
    EventIsOwn(w, mailbox, mailbox[i]);
    EventsMatchSignal(w, mailbox);
  }

  // ----- stages -----

  /** `own` lists the opportunity's events, in any order. */
  ghost predicate History(own: seq<Event>, events: seq<Event>, opportunity: string) {
    DistinctIds(own) && forall e :: e in own <==> e in events && e.opportunity == opportunity
  }

  /** The replayed stage of an opportunity, with nothing recorded read as applied. */
  ghost predicate StandsAt(events: seq<Event>, opportunity: string, stage: Stage) {
    forall own :: History(own, events, opportunity) ==>
      stage == if Replay(own, NoEvents).stage == NoEvents then Applied else Replay(own, NoEvents).stage
  }

  lemma {:induction false} SameEvents(a: seq<Event>, b: seq<Event>)
    requires DistinctIds(a) && DistinctIds(b) && forall e :: e in a <==> e in b
    ensures multiset(a) == multiset(b)
  {
    if a == [] {
      Sorting.HeadIsMember(b);
    } else {
      assert a[0] in b;
      var i :| 0 <= i < |b| && b[i] == a[0];
      Sorting.RemoveAtContents(b, i);
      WithoutEvent(a, 0);
      WithoutEvent(b, i);
      SameEvents(Sorting.RemoveAt(a, 0), Sorting.RemoveAt(b, i));
      Sorting.RemoveAtContents(a, 0);
      assert multiset(a) == multiset(Sorting.RemoveAt(a, 0)) + multiset{a[0]};
      assert multiset(b) == multiset(Sorting.RemoveAt(b, i)) + multiset{b[i]};
    }
  }

  lemma WithoutEvent(s: seq<Event>, i: nat)
    requires i < |s| && DistinctIds(s)
    ensures DistinctIds(Sorting.RemoveAt(s, i)) && |Sorting.RemoveAt(s, i)| < |s|
    ensures forall e :: e in Sorting.RemoveAt(s, i) <==> e in s && e != s[i]
  {
    var r := Sorting.RemoveAt(s, i);
    assert forall j :: 0 <= j < |r| ==> r[j] == if j < i then s[j] else s[j + 1];
    forall e | e in s && e != s[i] ensures e in r {
      var j :| 0 <= j < |s| && s[j] == e;
      assert r[if j < i then j else j - 1] == e;
    }
  }

  /** All listings of an opportunity's events replay alike. */
  lemma HistoriesAgree(a: seq<Event>, b: seq<Event>, events: seq<Event>, opportunity: string)
    requires History(a, events, opportunity) && History(b, events, opportunity)
    ensures Replay(a, NoEvents) == Replay(b, NoEvents)
  {
    SameEvents(a, b);
    ReplayPermutation(a, b, NoEvents);
  }

  lemma {:induction false} EventsForHistory(events: seq<Event>, opportunity: string)
    requires DistinctIds(events)
    ensures History(EventsFor(events, opportunity), events, opportunity)
  {
    if events != [] {
      var n := |events| - 1;
      EventsForHistory(events[..n], opportunity);
      assert events == events[..n] + [events[n]];
      var rest := EventsFor(events[..n], opportunity);
      forall i | 0 <= i < |rest| ensures rest[i].id != events[n].id {
        assert rest[i] in events[..n];
        var j :| 0 <= j < n && events[j] == rest[i];
      }
    }
  }

  lemma OrderedHistory(events: seq<Event>, opportunity: string)
    requires DistinctIds(events)
    ensures History(Ordered(EventsFor(events, opportunity)), events, opportunity)
  {
    hide EventLe, Sorting.Sort;
    var own := EventsFor(events, opportunity);
    EventsForHistory(events, opportunity);
    Sorting.SortMembers(own, EventLe);
    Sorting.PermutationDistinct(own, Ordered(own), EventIdOf);
    assert forall i, j :: 0 <= i < j < |Ordered(own)| ==> EventIdOf(Ordered(own)[i]) != EventIdOf(Ordered(own)[j]);
  }

  function EventIdOf(e: Event): string { e.id }

  /** A new event starts from where its opportunity stands and takes one step from there. */
  lemma EventRowStage(w: World, events: seq<Event>, m: Message)
    requires Linked(w, m).Some? && DistinctIds(events)
    ensures var e := EventRow(w, events, m);
      StandsAt(events, e.opportunity, e.previous) && e.next == NextStage(e.previous, e.category)
  {
    hide Replay, Ordered, EventsFor, Linked, Signal;
    var e := EventRow(w, events, m);
    var listed := Ordered(EventsFor(events, e.opportunity));
    OrderedHistory(events, e.opportunity);
    forall own | History(own, events, e.opportunity) ensures Replay(own, NoEvents) == Replay(listed, NoEvents) {
      HistoriesAgree(own, listed, events, e.opportunity);
    }
  }

  ghost predicate StepsFrom(events: seq<Event>, i: int)
    requires 0 <= i < |events|
  {
    StandsAt(events[..i], events[i].opportunity, events[i].previous)
    && events[i].next == NextStage(events[i].previous, events[i].category)
  }

  /** Whatever the dates: every event stores the stage its opportunity stood at when it was
      recorded, and the one its own category leads to from there. */
  lemma {:induction false} StagesStored(w: World, mailbox: seq<Message>)
    ensures forall i :: 0 <= i < |Pass(w, mailbox).events| ==> StepsFrom(Pass(w, mailbox).events, i)
  {
    if mailbox != [] {
      hide Pass, EventRow, StandsAt, NextStage;
      var n := |mailbox| - 1;
      var m, t := mailbox[n], Pass(w, mailbox[..n]);
      StagesStored(w, mailbox[..n]);
      PassFields(w, mailbox);
      EventIdsDistinct(w, mailbox[..n]);
      var events := Pass(w, mailbox).events;
      forall i | 0 <= i < |events| ensures StepsFrom(events, i) {
        if i < |t.events| {
          assert events[..i] == t.events[..i] && StepsFrom(t.events, i);
        } else {
          assert events[..i] == t.events;
          EventRowStage(w, t.events, m);
        }
      }
    }
  }

  // ----- stages of a mailbox in order -----

  /** Messages about one opportunity arrive in the order of their timestamps. */
  ghost predicate Dated(w: World, mailbox: seq<Message>) {
    forall i, j, o :: 0 <= i < j < |mailbox| && LinksTo(w, mailbox[i], o) && LinksTo(w, mailbox[j], o) ==>
      || mailbox[i].content == mailbox[j].content
      || Strings.Lt(mailbox[i].content.receivedAt, mailbox[j].content.receivedAt)
  }

  ghost predicate Ascending(events: seq<Event>) {
    forall i, j :: 0 <= i < j < |events| && events[i].opportunity == events[j].opportunity ==>
      Strings.Lt(events[i].occurredAt, events[j].occurredAt)
  }

  lemma {:induction false} EventsAscend(w: World, mailbox: seq<Message>)
    requires Dated(w, mailbox)
    ensures Ascending(Pass(w, mailbox).events)
  {
    if mailbox != [] {
      hide Pass, EventRow, Strings.Lt, Recorded;
      var n := |mailbox| - 1;
      var t := Pass(w, mailbox[..n]);
      DatedPrefix(w, mailbox);
      EventsAscend(w, mailbox[..n]);
      PassFields(w, mailbox);
      EventsRecorded(w, mailbox[..n]);
      if Linked(w, mailbox[n]).Some? && !HasEvent(t.events, EventKey(w, mailbox[n])) {
        var e := EventRow(w, t.events, mailbox[n]);
        EventRowRecords(w, t.events, mailbox[n]);
        NewEventRecorded(w, mailbox);
        forall i | 0 <= i < |t.events| && t.events[i].opportunity == e.opportunity
          ensures Strings.Lt(t.events[i].occurredAt, e.occurredAt)
        {
          assert t.events[i] in t.events;
          LaterThan(w, mailbox, t.events[i], e);
        }
      }
    }
  }

  lemma DatedPrefix(w: World, mailbox: seq<Message>)
    requires mailbox != [] && Dated(w, mailbox)
    ensures Dated(w, mailbox[..|mailbox| - 1])
  {
    hide LinksTo, Strings.Lt;
    var n := |mailbox| - 1;
    assert forall i :: 0 <= i < n ==> mailbox[..n][i] == mailbox[i];
  }

  lemma LaterThan(w: World, mailbox: seq<Message>, x: Event, e: Event)
    requires mailbox != [] && Dated(w, mailbox)
    requires var n := |mailbox| - 1;
      && Recorded(w, mailbox[..n], x) && Earliest(mailbox, n)
      && Records(w, mailbox[n], e) && x.opportunity == e.opportunity
    ensures Strings.Lt(x.occurredAt, e.occurredAt)
  {
    hide Strings.Lt;
    var n := |mailbox| - 1;
    var i :| 0 <= i < n && Earliest(mailbox[..n], i) && Records(w, mailbox[..n][i], x);
    assert mailbox[i] == mailbox[..n][i];
    assert LinksTo(w, mailbox[i], e.opportunity) && LinksTo(w, mailbox[n], e.opportunity);
  }

  lemma LaterSortsAfter(x: Event, e: Event)
    requires Strings.Lt(x.occurredAt, e.occurredAt)
    ensures EventLe(x, e) && !EventLe(e, x)
  {
    Strings.LtAsymmetric(x.occurredAt, e.occurredAt);
  }

  /** Event `i` leaves its opportunity where a replay of everything up to it finds it. */
  lemma ReplayedAfter(events: seq<Event>, i: nat)
    requires DistinctIds(events) && Ascending(events) && i < |events| && StepsFrom(events, i)
    ensures StandsAt(events[..i + 1], events[i].opportunity, events[i].next)
  {
    hide Replay, NextStage, EventLe, Strings.Lt;
    var e := events[i];
    var before := EventsFor(events[..i], e.opportunity);
    EventsForHistory(events[..i], e.opportunity);
    assert events[..i + 1] == events[..i] + [e];
    forall x | x in before ensures EventLe(x, e) && !EventLe(e, x) {
      assert x in events[..i];
      var j :| 0 <= j < i && events[j] == x;
      LaterSortsAfter(x, e);
    }
    RecordedStageIsReplayedStage(before, e);
    forall k | 0 <= k < |before| ensures before[k].id != e.id {
      assert before[k] in events[..i];
      var j :| 0 <= j < i && events[j] == before[k];
    }
    assert History(before + [e], events[..i + 1], e.opportunity);
    forall own | History(own, events[..i + 1], e.opportunity)
      ensures Replay(own, NoEvents) == Replay(before + [e], NoEvents)
    {
      HistoriesAgree(own, before + [e], events[..i + 1], e.opportunity);
    }
  }

  /** The nearest earlier event of the same opportunity. */
  ghost predicate Predecessor(events: seq<Event>, i: int, j: int)
    requires 0 <= i < |events|
  {
    0 <= j < i && events[j].opportunity == events[i].opportunity
    && forall k :: j < k < i ==> events[k].opportunity != events[i].opportunity
  }

  ghost predicate IsFirst(events: seq<Event>, i: int)
    requires 0 <= i < |events|
  {
    forall k :: 0 <= k < i ==> events[k].opportunity != events[i].opportunity
  }

  /** An opportunity's first event starts at applied, each later one where the one before it
      ended, and each ends where a replay of everything up to it ends. */
  ghost predicate Chained(events: seq<Event>, i: int)
    requires 0 <= i < |events|
  {
    && (IsFirst(events, i) ==> events[i].previous == Applied)
    && (forall j :: Predecessor(events, i, j) ==> events[i].previous == events[j].next)
    && StandsAt(events[..i + 1], events[i].opportunity, events[i].next)
  }

  lemma ChainedAt(events: seq<Event>, i: nat)
    requires DistinctIds(events) && Ascending(events) && i < |events|
    requires forall k :: 0 <= k < |events| ==> StepsFrom(events, k)
    ensures Chained(events, i)
  {
    hide StandsAt, NextStage, Ascending, Strings.Lt;
    ReplayedAfter(events, i);
    if IsFirst(events, i) {
      NothingStands(events, i);
    }
    forall j | Predecessor(events, i, j) ensures events[i].previous == events[j].next {
      ReplayedAfter(events, j);
      StandsOnce(events, i, j);
    }
  }

  /** In a dated mailbox the stages form a chain. */
  lemma StagesChain(w: World, mailbox: seq<Message>)
    requires Dated(w, mailbox)
    ensures var events := Pass(w, mailbox).events;
      forall i :: 0 <= i < |events| ==> Chained(events, i)
  {
    hide Pass, StepsFrom, Chained, Ascending;
    var events := Pass(w, mailbox).events;
    StagesStored(w, mailbox);
    EventsAscend(w, mailbox);
    EventIdsDistinct(w, mailbox);
    forall i | 0 <= i < |events| ensures Chained(events, i) {
      ChainedAt(events, i);
    }
  }

  lemma NothingStands(events: seq<Event>, i: nat)
    requires i < |events| && IsFirst(events, i) && StandsAt(events[..i], events[i].opportunity, events[i].previous)
    ensures events[i].previous == Applied
  {
    assert History([], events[..i], events[i].opportunity);
    assert Ordered([]) == [];
  }

  lemma StandsOnce(events: seq<Event>, i: nat, j: nat)
    requires DistinctIds(events) && i < |events| && Predecessor(events, i, j)
    requires StandsAt(events[..i], events[i].opportunity, events[i].previous)
    requires StandsAt(events[..j + 1], events[j].opportunity, events[j].next)
    ensures events[i].previous == events[j].next
  {
    hide Replay;
    var o := events[i].opportunity;
    var own := EventsFor(events[..i], o);
    EventsForHistory(events[..i], o);
    forall e ensures e in events[..i] && e.opportunity == o <==> e in events[..j + 1] && e.opportunity == o {
      if e in events[..i] && e.opportunity == o {
        var k :| 0 <= k < i && events[k] == e;
        assert events[..j + 1][k] == e;
      }
      if e in events[..j + 1] {
        var k :| 0 <= k < j + 1 && events[k] == e;
        assert events[..i][k] == e;
      }
    }
    assert History(own, events[..j + 1], o);
  }
}
