/** The effects one inbound message has on the durable store, as functions:
    inbox/orchestrator.py:88-112, inbox/pipeline.py:116-139, inbox/notifications.py:34-56. */
module InboxEffects {
  import opened Wrappers
  import opened Pipeline

  /** `unhashed` stands for the fields outside the content hash (sender name, headers, ...). */
  datatype Message = Message(content: Content, unhashed: string) {
    function Hash(): ContentHash { Sha256(content) }
  }

  datatype Priority = Urgent | High | Medium | Low | Noise

  datatype Reading = Reading(
    category: Category, track: Track, priority: Priority, requiresAction: bool, deadline: Option<string>)

  datatype Correlation = Correlation(authoritative: bool, opportunity: Option<string>)

  datatype OutboundAction = OutboundAction(id: string, opportunity: string, unknownOutcome: bool)

  /** Classifier, correlator, outbound ledger and identity digests, all fixed. Category,
      track and correlation depend on hashed fields only; the summary may also use the
      sender's display name. */
  datatype World = World(
    read: Content -> Reading, summarize: Message -> string, correlate: Content -> Correlation,
    actions: seq<OutboundAction>, eventId: (SignalId, string) -> string,
    workspace: string, candidate: string)

  datatype ReconciliationId = ReconciliationId(action: string, signal: SignalId)

  datatype Reconciliation = Reconciliation(
    action: string, opportunity: string, signal: SignalId, hash: ContentHash, createdAt: string)

  datatype NotificationKey = NotificationKey(
    workspace: string, candidate: string, signal: SignalId, category: Category)

  datatype Notification = Notification(
    opportunity: Option<string>, signal: SignalId, priority: Priority, category: Category,
    message: string, actionRequired: bool, deadline: Option<string>, createdAt: string,
    acknowledged: bool, acknowledgedAt: Option<string>)

  datatype Tables = Tables(
    reconciliations: map<ReconciliationId, Reconciliation>,
    events: seq<Event>,
    notifications: map<NotificationKey, Notification>)

  const EMPTY := Tables(map[], [], map[])

  /** `INSERT OR IGNORE` on a primary key. */
  function InsertOrIgnore<K, V>(m: map<K, V>, k: K, v: V): map<K, V> {
    if k in m then m else m[k := v]
  }

  function Signal(w: World, m: Message): SignalId {
    SignalId(m.Hash(), w.read(m.content).category, w.read(m.content).track)
  }

  /** The opportunity a message is authoritatively linked to. */
  function Linked(w: World, m: Message): Option<string> {
    var c := w.correlate(m.content);
    if c.authoritative && c.opportunity.Some? && c.opportunity.value != "" then c.opportunity else None
  }

  function FirstAction(actions: seq<OutboundAction>, opportunity: string): Option<OutboundAction> {
    if actions == [] then None
    else if actions[0].opportunity == opportunity then Some(actions[0])
    else FirstAction(actions[1..], opportunity)
  }

  // ----- reconciliation -----

  /** The action a confirmation reconciles, when one is due. */
  function ToReconcile(w: World, m: Message): Option<OutboundAction> {
    var linked := Linked(w, m);
    if linked.None? then None
    else
      var action := FirstAction(w.actions, linked.value);
      if action.Some? && action.value.unknownOutcome && Confirms(w.read(m.content).category)
      then action else None
  }

  function ReconciliationKey(w: World, m: Message): ReconciliationId
    requires ToReconcile(w, m).Some?
  {
    ReconciliationId(ToReconcile(w, m).value.id, Signal(w, m))
  }

  function ReconciliationRow(w: World, m: Message): Reconciliation
    requires ToReconcile(w, m).Some?
  {
    Reconciliation(ToReconcile(w, m).value.id, Linked(w, m).value, Signal(w, m), m.Hash(), m.content.receivedAt)
  }

  function Reconcile(w: World, t: Tables, m: Message): Tables {
    if ToReconcile(w, m).None? then t
    else t.(reconciliations :=
      InsertOrIgnore(t.reconciliations, ReconciliationKey(w, m), ReconciliationRow(w, m)))
  }

  // ----- pipeline event -----

  function EventsFor(events: seq<Event>, opportunity: string): seq<Event> {
    if events == [] then []
    else
      var rest := EventsFor(events[..|events| - 1], opportunity);
      var last := events[|events| - 1];
      if last.opportunity == opportunity then rest + [last] else rest
  }

  predicate HasEvent(events: seq<Event>, id: string) {
    exists i :: 0 <= i < |events| && events[i].id == id
  }

  function EventKey(w: World, m: Message): string
    requires Linked(w, m).Some?
  {
    w.eventId(Signal(w, m), Linked(w, m).value)
  }

  function EventRow(w: World, events: seq<Event>, m: Message): Event
    requires Linked(w, m).Some?
  {
    var opportunity := Linked(w, m).value;
    var previous := StageOrApplied(Replay(Ordered(EventsFor(events, opportunity)), NoEvents).stage);
    var category := w.read(m.content).category;
    Event(EventKey(w, m), opportunity, Signal(w, m), previous, NextStage(previous, category),
          w.read(m.content).track, category, m.Hash(), m.content.receivedAt, m.content.receivedAt, w.summarize(m))
  }

  function Record(w: World, t: Tables, m: Message): Tables {
    if Linked(w, m).None? || HasEvent(t.events, EventKey(w, m)) then t
    else t.(events := t.events + [EventRow(w, t.events, m)])
  }

  // ----- notification -----

  predicate Notifies(w: World, m: Message) {
    var r := w.read(m.content);
    r.priority !in {Low, Noise} || r.requiresAction
  }

  function NoteKey(w: World, m: Message): NotificationKey {
    NotificationKey(w.workspace, w.candidate, Signal(w, m), w.read(m.content).category)
  }

  function NoteRow(w: World, m: Message): Notification {
    var r := w.read(m.content);
    var c := w.correlate(m.content);
    Notification(if c.authoritative then c.opportunity else None, Signal(w, m), r.priority, r.category,
                 w.summarize(m), r.requiresAction, r.deadline, m.content.receivedAt, false, None)
  }

  function Notify(w: World, t: Tables, m: Message): Tables {
    if !Notifies(w, m) then t
    else t.(notifications := InsertOrIgnore(t.notifications, NoteKey(w, m), NoteRow(w, m)))
  }

  // ----- one message, one pass -----

  /** The first `n` of a message's three effects, in the order the cycle writes them. */
  function Partly(w: World, t: Tables, m: Message, n: nat): Tables {
    if n == 0 then t
    else if n == 1 then Reconcile(w, t, m)
    else if n == 2 then Record(w, Reconcile(w, t, m), m)
    else Notify(w, Record(w, Reconcile(w, t, m), m), m)
  }

  function Absorb(w: World, t: Tables, m: Message): Tables {
    Partly(w, t, m, 3)
  }

  /** One uninterrupted sequential pass over a mailbox, from an empty store. */
  function Pass(w: World, mailbox: seq<Message>): Tables {
    if mailbox == [] then EMPTY
    else Absorb(w, Pass(w, mailbox[..|mailbox| - 1]), mailbox[|mailbox| - 1])
  }

  function Hashes(mailbox: seq<Message>): set<ContentHash> {
    set i | 0 <= i < |mailbox| :: mailbox[i].Hash()
  }

  /** Every effect this message calls for is in the tables. */
  ghost predicate Present(w: World, t: Tables, m: Message) {
    && (ToReconcile(w, m).Some? ==> ReconciliationKey(w, m) in t.reconciliations)
    && (Linked(w, m).Some? ==> HasEvent(t.events, EventKey(w, m)))
    && (Notifies(w, m) ==> NoteKey(w, m) in t.notifications)
  }

  // ----- idempotence -----

  /** Each effect reads and writes its own table only. */
  lemma PartlyFields(w: World, t: Tables, m: Message, n: nat)
    requires n <= 3
    ensures Partly(w, t, m, n) == Tables(
      (if n >= 1 then Reconcile(w, t, m) else t).reconciliations,
      (if n >= 2 then Record(w, t, m) else t).events,
      (if n >= 3 then Notify(w, t, m) else t).notifications)
  {
  }

  /** Resuming a message after `j` of its effects leaves what an uninterrupted run leaves. */
  lemma Resume(w: World, t: Tables, m: Message, j: nat, n: nat)
    requires j <= 3 && n <= 3
    ensures Partly(w, Partly(w, t, m, j), m, n) == Partly(w, t, m, if j < n then n else j)
  {
    hide Linked, ToReconcile, EventRow, NoteRow, ReconciliationRow, HasEvent;
    var u := Partly(w, t, m, j);
    PartlyFields(w, t, m, j);
    PartlyFields(w, u, m, n);
    PartlyFields(w, t, m, if j < n then n else j);
    assert (if n >= 2 then Record(w, u, m) else u).events
        == (if j >= 2 || n >= 2 then Record(w, t, m) else t).events by {
      RecordTwice(w, t, m);
    }
  }

  lemma RecordTwice(w: World, t: Tables, m: Message)
    ensures Record(w, Record(w, t, m), m) == Record(w, t, m)
    ensures Linked(w, m).Some? ==> HasEvent(Record(w, t, m).events, EventKey(w, m))
  {
    if Linked(w, m).Some? && !HasEvent(t.events, EventKey(w, m)) {
      var events := Record(w, t, m).events;
      assert events[|t.events|].id == EventKey(w, m);
    }
  }

  lemma AbsorbMakesPresent(w: World, t: Tables, m: Message)
    ensures Present(w, Absorb(w, t, m), m)
  {
    RecordTwice(w, Reconcile(w, t, m), m);
  }

  lemma PresentIsNoOp(w: World, t: Tables, m: Message, n: nat)
    requires Present(w, t, m)
    ensures Partly(w, t, m, n) == t
  {
  }

  /** Effects are keyed by hashed fields only, and no later message removes one. */
  lemma PresentSurvives(w: World, t: Tables, m: Message, m': Message)
    requires Present(w, t, m)
    ensures Present(w, Absorb(w, t, m'), m)
  {
    PartlyFields(w, t, m', 3);
    if Linked(w, m).Some? {
      EventSurvives(w, t, EventKey(w, m), m');
    }
  }

  lemma EventSurvives(w: World, t: Tables, id: string, m': Message)
    requires HasEvent(t.events, id)
    ensures HasEvent(Record(w, t, m').events, id)
  {
    var i :| 0 <= i < |t.events| && t.events[i].id == id;
    assert Record(w, t, m').events[i] == t.events[i];
  }

  lemma PresentByHash(w: World, t: Tables, m: Message, m': Message)
    requires Present(w, t, m') && m.Hash() == m'.Hash()
    ensures Present(w, t, m)
  {
  }

  /** After a pass, every message of the mailbox (and every message with the same
      content) has all its effects. */
  lemma {:induction false} PassPresent(w: World, mailbox: seq<Message>, m: Message)
    requires m.Hash() in Hashes(mailbox)
    ensures Present(w, Pass(w, mailbox), m)
  {
    var n := |mailbox| - 1;
    var before, last := mailbox[..n], mailbox[n];
    if m.Hash() == last.Hash() {
      AbsorbMakesPresent(w, Pass(w, before), last);
      PresentByHash(w, Pass(w, mailbox), m, last);
    } else {
      var i :| 0 <= i < |mailbox| && mailbox[i].Hash() == m.Hash();
      assert before[i].Hash() in Hashes(before);
      PassPresent(w, before, m);
      PresentSurvives(w, Pass(w, before), m, last);
    }
  }

  /** Redelivering content the pass has already seen changes nothing. */
  lemma {:induction false} SkipSeen(w: World, mailbox: seq<Message>, k: nat, p: nat)
    requires k <= p <= |mailbox|
    requires forall i :: k <= i < p ==> mailbox[i].Hash() in Hashes(mailbox[..k])
    ensures Pass(w, mailbox[..p]) == Pass(w, mailbox[..k])
    ensures Hashes(mailbox[..p]) == Hashes(mailbox[..k])
  {
    if k < p {
      SkipSeen(w, mailbox, k, p - 1);
      var last := mailbox[p - 1];
      assert mailbox[..p][..p - 1] == mailbox[..p - 1];
      PassPresent(w, mailbox[..p - 1], last);
      PresentIsNoOp(w, Pass(w, mailbox[..p - 1]), last, 3);
      HashesSnoc(mailbox, p - 1);
    }
  }

  lemma HashesSnoc(mailbox: seq<Message>, p: nat)
    requires p < |mailbox|
    ensures Hashes(mailbox[..p + 1]) == Hashes(mailbox[..p]) + {mailbox[p].Hash()}
  {
    var a, b := mailbox[..p + 1], mailbox[..p];
    assert forall i :: 0 <= i < p ==> a[i] == b[i];
    forall h | h in Hashes(b) ensures h in Hashes(a) {
      var i :| 0 <= i < p && b[i].Hash() == h;
      assert a[i].Hash() == h;
    }
    assert a[p].Hash() in Hashes(a);
  }

  lemma RecordKeepsDistinct(w: World, t: Tables, m: Message)
    requires DistinctIds(t.events)
    ensures DistinctIds(Record(w, t, m).events)
  {
    var events := Record(w, t, m).events;
    forall i, j | 0 <= i < j < |events| ensures events[i].id != events[j].id {
      assert events[i] == t.events[i];
    }
  }

  lemma {:induction false} EventIdsDistinct(w: World, mailbox: seq<Message>)
    ensures DistinctIds(Pass(w, mailbox).events)
  {
    if mailbox != [] {
      var before, last := mailbox[..|mailbox| - 1], mailbox[|mailbox| - 1];
      EventIdsDistinct(w, before);
      PartlyFields(w, Pass(w, before), last, 3);
      RecordKeepsDistinct(w, Pass(w, before), last);
    }
  }

  /** The digest behind `compute_event_id` does not collide. */
  ghost predicate InjectiveEventIds(w: World) {
    forall s, o, s', o' :: w.eventId(s, o) == w.eventId(s', o') ==> s == s' && o == o'
  }

  lemma {:induction false} EventsCarryTheirKey(w: World, mailbox: seq<Message>)
    ensures forall e :: e in Pass(w, mailbox).events ==> e.id == w.eventId(e.signal, e.opportunity)
  {
    if mailbox != [] {
      var before, last := mailbox[..|mailbox| - 1], mailbox[|mailbox| - 1];
      EventsCarryTheirKey(w, before);
      PartlyFields(w, Pass(w, before), last, 3);
    }
  }

  /** A linked message's event is its own: recorded for that signal and that opportunity. */
  lemma EventIsOwn(w: World, mailbox: seq<Message>, m: Message)
    requires InjectiveEventIds(w) && m.Hash() in Hashes(mailbox) && Linked(w, m).Some?
    ensures exists e :: e in Pass(w, mailbox).events && e.signal == Signal(w, m)
                        && e.opportunity == Linked(w, m).value && e.category == w.read(m.content).category
  {
    PassPresent(w, mailbox, m);
    EventsCarryTheirKey(w, mailbox);
    EventsMatchSignal(w, mailbox);
    var events := Pass(w, mailbox).events;
    var i :| 0 <= i < |events| && events[i].id == EventKey(w, m);
    assert events[i] in events;
  }

  lemma {:induction false} EventsMatchSignal(w: World, mailbox: seq<Message>)
    ensures forall e :: e in Pass(w, mailbox).events ==> e.category == e.signal.category && e.hash == e.signal.hash
  {
    if mailbox != [] {
      var before, last := mailbox[..|mailbox| - 1], mailbox[|mailbox| - 1];
      EventsMatchSignal(w, before);
      PartlyFields(w, Pass(w, before), last, 3);
    }
  }
}
