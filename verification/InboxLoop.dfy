/** inbox/persistence.py: the SQLite store, written by one process that may die between
    any two durable writes while the founder acknowledges notifications concurrently. */
module InboxStore {
  import opened Wrappers
  import opened Pipeline
  import opened InboxEffects

  datatype EvidenceRow = EvidenceRow(message: Message, processed: bool)

  datatype Acknowledgement = Acknowledgement(key: NotificationKey, at: string)

  function Unacknowledge(n: Notification): Notification {
    n.(acknowledged := false, acknowledgedAt := None)
  }

  /** Notifications up to acknowledgement. */
  function Strip(m: map<NotificationKey, Notification>): map<NotificationKey, Notification> {
    map k | k in m :: Unacknowledge(m[k])
  }

  /** No acknowledged notification has been lost or re-opened. */
  ghost predicate AcksKept(before: map<NotificationKey, Notification>, after: map<NotificationKey, Notification>) {
    forall k :: k in before && before[k].acknowledged ==> k in after && after[k].acknowledged
  }

  /** The same messages are on file; only their processing status may differ. */
  ghost predicate SameEvidence(a: map<ContentHash, EvidenceRow>, b: map<ContentHash, EvidenceRow>) {
    a.Keys == b.Keys && forall h :: h in a ==> a[h].message == b[h].message
  }

  lemma StripInsert(m: map<NotificationKey, Notification>, k: NotificationKey, n: Notification)
    requires Unacknowledge(n) == n
    ensures Strip(InsertOrIgnore(m, k, n)) == InsertOrIgnore(Strip(m), k, n)
  {
  }

  class DurableInboxStore {
    var evidence: map<ContentHash, EvidenceRow>
    var reconciliations: map<ReconciliationId, Reconciliation>
    var events: seq<Event>
    var notifications: map<NotificationKey, Notification>
    var checkpoint: Option<int>
    /** What the outside world does to the running process: before its i-th durable write the
        acknowledgements `fate[i]` arrive; once `fate` is used up the process is dead. */
    var fate: seq<seq<Acknowledgement>>

    ghost function Tables(): Tables
      reads this
    {
      InboxEffects.Tables(reconciliations, events, Strip(notifications))
    }

    ghost function Processed(): set<ContentHash>
      reads this
    {
      set h | h in evidence && evidence[h].processed
    }

    constructor ()
      ensures Tables() == EMPTY && evidence == map[] && checkpoint == None && fate == []
    {
      evidence, reconciliations, events, notifications := map[], map[], [], map[];
      checkpoint, fate := None, [];
    }

    /** `UPDATE ... SET acknowledged = 1 WHERE notification_key = ?`. */
    method AcknowledgeNotification(a: Acknowledgement) returns (updated: bool)
      modifies this`notifications
      ensures updated <==> a.key in old(notifications)
      ensures notifications == if updated
        then old(notifications)[a.key :=
               old(notifications)[a.key].(acknowledged := true, acknowledgedAt := Some(a.at))]
        else old(notifications)
      ensures Strip(notifications) == Strip(old(notifications))
      ensures AcksKept(old(notifications), notifications)
    {
      updated := a.key in notifications;
      if updated {
        notifications := notifications[a.key :=
          notifications[a.key].(acknowledged := true, acknowledgedAt := Some(a.at))];
      }
    }

    /** The moment before a durable write. */
    method Survive() returns (alive: bool)
      modifies this`notifications, this`fate
      ensures alive <==> old(fate) != []
      ensures alive ==> fate == old(fate)[1..]
      ensures !alive ==> fate == [] && notifications == old(notifications)
      ensures Strip(notifications) == Strip(old(notifications))
      ensures AcksKept(old(notifications), notifications)
    {
      alive := fate != [];
      if alive {
        var acks := fate[0];
        fate := fate[1..];
        for i := 0 to |acks|
          invariant fate == old(fate)[1..]
          invariant Strip(notifications) == Strip(old(notifications))
          invariant AcksKept(old(notifications), notifications)
        {
          var _ := AcknowledgeNotification(acks[i]);
        }
      }
    }

    method StoreEvidence(m: Message) returns (alive: bool)
      modifies this`evidence, this`notifications, this`fate
      ensures alive <==> old(fate) != []
      ensures |fate| == |old(fate)| - if alive then 1 else 0
      ensures evidence ==
        if alive then InsertOrIgnore(old(evidence), m.Hash(), EvidenceRow(m, false)) else old(evidence)
      ensures Strip(notifications) == Strip(old(notifications)) && AcksKept(old(notifications), notifications)
    {
      alive := Survive();
      if alive {
        evidence := InsertOrIgnore(evidence, m.Hash(), EvidenceRow(m, false));
      }
    }

    method MarkEvidenceProcessed(hash: ContentHash) returns (alive: bool)
      modifies this`evidence, this`notifications, this`fate
      ensures alive <==> old(fate) != []
      ensures |fate| == |old(fate)| - if alive then 1 else 0
      ensures evidence ==
        if alive && hash in old(evidence)
        then old(evidence)[hash := old(evidence)[hash].(processed := true)] else old(evidence)
      ensures Processed() ==
        if alive && hash in old(evidence) then old(Processed()) + {hash} else old(Processed())
      ensures SameEvidence(old(evidence), evidence)
      ensures Strip(notifications) == Strip(old(notifications)) && AcksKept(old(notifications), notifications)
    {
      alive := Survive();
      if alive && hash in evidence {
        evidence := evidence[hash := evidence[hash].(processed := true)];
      }
    }

    method IsEvidenceProcessed(hash: ContentHash) returns (b: bool)
      ensures b <==> hash in Processed()
    {
      b := hash in evidence && evidence[hash].processed;
    }

    method RecordReconciliation(key: ReconciliationId, row: Reconciliation) returns (alive: bool)
      modifies this`reconciliations, this`notifications, this`fate
      ensures alive <==> old(fate) != []
      ensures |fate| == |old(fate)| - if alive then 1 else 0
      ensures reconciliations ==
        if alive then InsertOrIgnore(old(reconciliations), key, row) else old(reconciliations)
      ensures Strip(notifications) == Strip(old(notifications)) && AcksKept(old(notifications), notifications)
    {
      alive := Survive();
      if alive {
        reconciliations := InsertOrIgnore(reconciliations, key, row);
      }
    }

    method StorePipelineEvent(e: Event) returns (alive: bool, inserted: bool)
      modifies this`events, this`notifications, this`fate
      ensures alive <==> old(fate) != []
      ensures |fate| == |old(fate)| - if alive then 1 else 0
      ensures inserted <==> alive && !HasEvent(old(events), e.id)
      ensures events == if inserted then old(events) + [e] else old(events)
      ensures Strip(notifications) == Strip(old(notifications)) && AcksKept(old(notifications), notifications)
    {
      alive := Survive();
      inserted := alive && !HasEvent(events, e.id);
      if inserted {
        events := events + [e];
      }
    }

    method StoreNotification(key: NotificationKey, row: Notification) returns (alive: bool, inserted: bool)
      requires Unacknowledge(row) == row
      modifies this`notifications, this`fate
      ensures alive <==> old(fate) != []
      ensures |fate| == |old(fate)| - if alive then 1 else 0
      ensures inserted <==> alive && key !in old(notifications)
      ensures Strip(notifications) ==
        if alive then InsertOrIgnore(Strip(old(notifications)), key, row) else Strip(old(notifications))
      ensures AcksKept(old(notifications), notifications)
    {
      alive := Survive();
      inserted := alive && key !in notifications;
      assert key in notifications <==> key in old(notifications) by {
        assert key in Strip(notifications) <==> key in Strip(old(notifications));
      }
      if inserted {
        StripInsert(notifications, key, row);
        notifications := notifications[key := row];
      }
    }

    method SaveCheckpoint(cursor: int) returns (alive: bool)
      modifies this`checkpoint, this`notifications, this`fate
      ensures alive <==> old(fate) != []
      ensures |fate| == |old(fate)| - if alive then 1 else 0
      ensures checkpoint == if alive then Some(cursor) else old(checkpoint)
      ensures Strip(notifications) == Strip(old(notifications)) && AcksKept(old(notifications), notifications)
    {
      alive := Survive();
      if alive {
        checkpoint := Some(cursor);
      }
    }
  }
}

/** inbox/orchestrator.py and inbox/ingestion.py: polling cycles over an append-only mailbox. */
module InboxLoop {
  import opened Wrappers
  import opened Pipeline
  import opened InboxEffects
  import opened InboxStore

  // ----- what is true between any two durable writes -----

  /** The store holds exactly the effects of one sequential pass over the first `k` messages,
      plus the first `j` effects of message `k`; exactly those `k` messages' contents are
      PROCESSED, and the committed cursor has not overtaken them. */
  ghost predicate Consistent(w: World, mailbox: seq<Message>, t: Tables, processed: set<ContentHash>,
                             cursor: nat, k: nat, j: nat)
  {
    && cursor <= k <= |mailbox| && j <= 3
    && processed == Hashes(mailbox[..k])
    && (j == 0 ==> t == Pass(w, mailbox[..k]))
    && (j > 0 ==> k < |mailbox| && mailbox[k].Hash() !in processed
                  && t == Partly(w, Pass(w, mailbox[..k]), mailbox[k], j))
  }

  lemma PrefixHashes(mailbox: seq<Message>, k: nat)
    requires k <= |mailbox|
    ensures forall i :: 0 <= i < k ==> mailbox[i].Hash() in Hashes(mailbox[..k])
  {
    forall i | 0 <= i < k ensures mailbox[i].Hash() in Hashes(mailbox[..k]) {
      assert mailbox[..k][i] == mailbox[i];
    }
  }

  /** Handling message `p`, to the end or to its n-th effect, keeps the store consistent. */
  lemma HandleKeepsConsistent(w: World, mailbox: seq<Message>, t: Tables, processed: set<ContentHash>,
                              cursor: nat, k: nat, j: nat, p: nat, n: nat, done: bool)
      returns (k': nat, j': nat)
    requires Consistent(w, mailbox, t, processed, cursor, k, j)
    requires p < |mailbox| && Hashes(mailbox[..p]) <= processed
    requires j > 0 ==> mailbox[p].Hash() !in processed
    requires n <= 3 && (done ==> n == 3)
    ensures Consistent(w, mailbox, Partly(w, t, mailbox[p], n),
                       if done then processed + {mailbox[p].Hash()} else processed, cursor, k', j')
    ensures done ==> j' == 0
  {
    var m := mailbox[p];
    if m.Hash() in processed {
      PassPresent(w, mailbox[..k], m);
      PresentIsNoOp(w, t, m, n);
      assert processed + {m.Hash()} == processed;
      k', j' := k, 0;
    } else {
      PrefixHashes(mailbox, k);
      PrefixHashes(mailbox, p);
      SkipSeen(w, mailbox, k, p);
      assert t == Partly(w, Pass(w, mailbox[..p]), m, j);
      k', j' := HandleFresh(w, mailbox, processed, cursor, j, p, n, done);
    }
  }

  lemma HandleFresh(w: World, mailbox: seq<Message>, processed: set<ContentHash>,
                    cursor: nat, j: nat, p: nat, n: nat, done: bool)
      returns (k': nat, j': nat)
    requires cursor <= p < |mailbox| && processed == Hashes(mailbox[..p])
    requires mailbox[p].Hash() !in processed
    requires j <= 3 && n <= 3 && (done ==> n == 3)
    ensures Consistent(w, mailbox, Partly(w, Partly(w, Pass(w, mailbox[..p]), mailbox[p], j), mailbox[p], n),
                       if done then processed + {mailbox[p].Hash()} else processed, cursor, k', j')
    ensures done ==> j' == 0
  {
    Resume(w, Pass(w, mailbox[..p]), mailbox[p], j, n);
    HashesSnoc(mailbox, p);
    assert mailbox[..p + 1][..p] == mailbox[..p];
    k', j' := if done then p + 1 else p, if done then 0 else if j < n then n else j;
  }

  /** The cursor may be committed over any prefix that is already processed. */
  lemma CommitKeepsConsistent(w: World, mailbox: seq<Message>, t: Tables, processed: set<ContentHash>,
                              cursor: nat, k: nat, j: nat, end: nat) returns (k': nat)
    requires Consistent(w, mailbox, t, processed, cursor, k, j)
    requires end <= |mailbox| && Hashes(mailbox[..end]) <= processed
    ensures Consistent(w, mailbox, t, processed, end, k', j)
    ensures k' >= k
  {
    k' := k;
    if k < end {
      assert mailbox[..end][k] == mailbox[k];
      forall i | k <= i < end ensures mailbox[i].Hash() in processed {
        assert mailbox[..end][i] == mailbox[i];
      }
      SkipSeen(w, mailbox, k, end);
      k' := end;
    }
  }

  lemma DeliverKeepsConsistent(w: World, mailbox: seq<Message>, t: Tables, processed: set<ContentHash>,
                               cursor: nat, k: nat, j: nat, m: Message)
    requires Consistent(w, mailbox, t, processed, cursor, k, j)
    ensures Consistent(w, mailbox + [m], t, processed, cursor, k, j)
  {
    assert (mailbox + [m])[..k] == mailbox[..k];
  }

  /** Messages of a batch that are not yet PROCESSED, in order. */
  function Unprocessed(batch: seq<Message>, processed: set<ContentHash>): seq<Message> {
    if batch == [] then []
    else
      var rest := Unprocessed(batch[..|batch| - 1], processed);
      var last := batch[|batch| - 1];
      if last.Hash() in processed then rest else rest + [last]
  }

  lemma {:induction false} UnprocessedCons(batch: seq<Message>, processed: set<ContentHash>)
    requires batch != []
    ensures Unprocessed(batch, processed) ==
      (if batch[0].Hash() in processed then [] else [batch[0]]) + Unprocessed(batch[1..], processed)
  {
    var n := |batch| - 1;
    if n > 0 {
      UnprocessedCons(batch[..n], processed);
      assert batch[..n][1..] == batch[1..][..n - 1];
    }
  }

  /** The first unprocessed message of a batch, found behind processed ones. */
  lemma {:induction false} UnprocessedHead(batch: seq<Message>, processed: set<ContentHash>) returns (p: nat)
    requires Unprocessed(batch, processed) != []
    ensures p < |batch| && forall i :: 0 <= i < p ==> batch[i].Hash() in processed
    ensures batch[p].Hash() !in processed
    ensures Unprocessed(batch, processed) == [batch[p]] + Unprocessed(batch[p + 1..], processed)
  {
    UnprocessedCons(batch, processed);
    if batch[0].Hash() in processed {
      var p' := UnprocessedHead(batch[1..], processed);
      p := p' + 1;
      assert batch[1..][p' + 1..] == batch[p + 1..];
    } else {
      p := 0;
    }
  }

  lemma {:induction false} UnprocessedEmpty(batch: seq<Message>, processed: set<ContentHash>)
    requires Unprocessed(batch, processed) == []
    ensures Hashes(batch) <= processed
  {
    if batch != [] {
      var n := |batch| - 1;
      UnprocessedEmpty(batch[..n], processed);
      HashesSnoc(batch, n);
      assert batch[..n + 1] == batch;
    }
  }

  lemma HashesSplit(mailbox: seq<Message>, a: nat, b: nat)
    requires a <= b <= |mailbox|
    ensures Hashes(mailbox[..b]) == Hashes(mailbox[..a]) + Hashes(mailbox[a..b])
  {
    var x, y, z := mailbox[..b], mailbox[..a], mailbox[a..b];
    forall h | h in Hashes(x) ensures h in Hashes(y) + Hashes(z) {
      var i :| 0 <= i < b && x[i].Hash() == h;
      assert if i < a then y[i] == x[i] else z[i - a] == x[i];
    }
    forall h | h in Hashes(y) ensures h in Hashes(x) {
      var i :| 0 <= i < a && y[i].Hash() == h;
      assert x[i] == y[i];
    }
    forall h | h in Hashes(z) ensures h in Hashes(x) {
      var i :| 0 <= i < b - a && z[i].Hash() == h;
      assert x[i + a] == z[i];
    }
  }

  /** From position `q` of a batch, the next message to handle and what is left after it. */
  lemma NextInBatch(mailbox: seq<Message>, q: nat, end: nat, polled: set<ContentHash>, processed: set<ContentHash>)
      returns (p: nat)
    requires q <= end <= |mailbox| && Unprocessed(mailbox[q..end], polled) != []
    requires Hashes(mailbox[..q]) <= processed && polled <= processed
    ensures q <= p < end && mailbox[p].Hash() !in polled && Hashes(mailbox[..p]) <= processed
    ensures Unprocessed(mailbox[q..end], polled) == [mailbox[p]] + Unprocessed(mailbox[p + 1..end], polled)
  {
    var d := UnprocessedHead(mailbox[q..end], polled);
    p := q + d;
    assert mailbox[q..end][d + 1..] == mailbox[p + 1..end];
    HashesSplit(mailbox, q, p);
    forall h | h in Hashes(mailbox[q..p]) ensures h in polled {
      var i :| 0 <= i < p - q && mailbox[q..p][i].Hash() == h;
      assert mailbox[q..end][i] == mailbox[q..p][i];
    }
  }

  /** `rest` is what a poll that saw `polled` has left to handle from position `q` to `end`. */
  ghost predicate Remaining(mailbox: seq<Message>, rest: seq<Message>, q: nat, end: nat,
                            polled: set<ContentHash>, processed: set<ContentHash>)
  {
    && q <= end <= |mailbox| && rest == Unprocessed(mailbox[q..end], polled)
    && Hashes(mailbox[..q]) <= processed && polled <= processed
  }

  lemma RemainingStep(mailbox: seq<Message>, rest: seq<Message>, q: nat, end: nat,
                      polled: set<ContentHash>, processed: set<ContentHash>) returns (p: nat)
    requires Remaining(mailbox, rest, q, end, polled, processed) && rest != []
    ensures p < |mailbox| && rest[0] == mailbox[p] && rest[0].Hash() !in polled
    ensures Hashes(mailbox[..p]) <= processed
    ensures Remaining(mailbox, rest[1..], p + 1, end, polled, processed + {rest[0].Hash()})
  {
    p := NextInBatch(mailbox, q, end, polled, processed);
    HashesSnoc(mailbox, p);
  }

  lemma RemainingDone(mailbox: seq<Message>, q: nat, end: nat,
                      polled: set<ContentHash>, processed: set<ContentHash>)
    requires Remaining(mailbox, [], q, end, polled, processed)
    ensures Hashes(mailbox[..end]) <= processed
  {
    UnprocessedEmpty(mailbox[q..end], polled);
    HashesSplit(mailbox, q, end);
  }

  // ----- transport -----

  function Clamp(i: int, lo: int, hi: int): int
    requires lo <= hi
  {
    if i < lo then lo else if i > hi then hi else i
  }

  /** Python's `messages[start:end]`, where a negative `end` counts from the back. */
  function SliceEnd(length: nat, end: int): (e: nat)
    ensures e <= length
  {
    Clamp(if end < 0 then length + end else end, 0, length)
  }

  class MailTransport {
    var messages: seq<Message>

    constructor ()
      ensures messages == []
    {
      messages := [];
    }

    method AddMessage(m: Message)
      modifies this
      ensures messages == old(messages) + [m]
    {
      messages := messages + [m];
    }

    /** inbox/ingestion.py:29-36. A cursor text that is not all digits reads as 0. */
    method FetchMessages(cursor: int, limit: int) returns (batch: seq<Message>, next: int)
      ensures next == NextCursor(cursor, limit, |messages|)
      ensures batch == messages[FetchStart(cursor, |messages|)..FetchEnd(cursor, limit, |messages|)]
      ensures 0 <= cursor <= |messages| && limit >= 0 ==>
        next == cursor + |batch| == if cursor + limit < |messages| then cursor + limit else |messages|
    {
      var from := if cursor < 0 then 0 else cursor;
      next := if from + limit < |messages| then from + limit else |messages|;
      var lo, hi := Clamp(from, 0, |messages|), SliceEnd(|messages|, next);
      batch := if hi < lo then [] else messages[lo..hi];
    }
  }

  /** Where a fetch from this cursor starts. */
  function FetchStart(cursor: int, length: nat): (start: nat)
    ensures start <= length
  {
    Clamp(cursor, 0, length)
  }

  /** The cursor a fetch returns; a negative limit moves it back. */
  function NextCursor(cursor: int, limit: int, length: nat): (next: int)
    ensures next <= length
  {
    var from := if cursor < 0 then 0 else cursor;
    if from + limit < length then from + limit else length
  }

  /** Where it ends: at the new cursor, read as Python reads the end of a slice. */
  function FetchEnd(cursor: int, limit: int, length: nat): (end: nat)
    ensures FetchStart(cursor, length) <= end <= length && NextCursor(cursor, limit, length) <= end
    ensures 0 <= cursor <= length && limit >= 0 ==> end == NextCursor(cursor, limit, length)
  {
    var end := SliceEnd(length, NextCursor(cursor, limit, length));
    if end < FetchStart(cursor, length) then FetchStart(cursor, length) else end
  }

  // ----- the operational cycle -----

  function Cursor(checkpoint: Option<int>): nat {
    if checkpoint.None? || checkpoint.value < 0 then 0 else checkpoint.value
  }

  datatype CycleResult = CycleResult(
    ingested: nat, signals: nat, events: nat, notifications: nat, reconciliations: nat, cursor: int)

  /** How many of these messages ask for a reconciliation (each is counted, stored or not). */
  function ReconciliationsAsked(w: World, todo: seq<Message>): nat {
    if todo == [] then 0
    else (if ToReconcile(w, todo[0]).Some? then 1 else 0) + ReconciliationsAsked(w, todo[1..])
  }

  datatype Op =
    | Deliver(message: Message)
    | Acknowledge(ack: Acknowledgement)
    | Cycle(limit: int, fate: seq<seq<Acknowledgement>>)

  /** The messages a schedule delivers, in order. */
  function Delivered(schedule: seq<Op>): seq<Message> {
    if schedule == [] then []
    else
      var last := schedule[|schedule| - 1];
      Delivered(schedule[..|schedule| - 1]) + if last.Deliver? then [last.message] else []
  }

  lemma DeliveredNone(schedule: seq<Op>)
    ensures Delivered(schedule[..0]) == []
  {
  }

  lemma DeliveredSnoc(schedule: seq<Op>, i: nat)
    requires i < |schedule|
    ensures Delivered(schedule[..i + 1])
         == Delivered(schedule[..i]) + if schedule[i].Deliver? then [schedule[i].message] else []
  {
    assert schedule[..i + 1][..i] == schedule[..i];
  }

  class Orchestrator {
    const world: World
    const store: DurableInboxStore
    const transport: MailTransport
    ghost var absorbed: nat
    ghost var partial: nat

    ghost predicate Valid()
      reads this, store, transport
    {
      && Consistent(world, transport.messages, store.Tables(), store.Processed(),
                    Cursor(store.checkpoint), absorbed, partial)
      && forall h :: h in store.evidence ==>
           store.evidence[h].message in transport.messages && store.evidence[h].message.Hash() == h
    }

    constructor (w: World)
      ensures Valid() && world == w && transport.messages == [] && store.Tables() == EMPTY
      ensures fresh(store) && fresh(transport)
    {
      world := w;
      store := new DurableInboxStore();
      transport := new MailTransport();
      absorbed, partial := 0, 0;
    }

    /** inbox/ingestion.py:117-126, after the fetch. */
    method StoreBatch(batch: seq<Message>) returns (alive: bool, todo: seq<Message>)
      modifies store
      ensures store.Tables() == old(store.Tables()) && store.Processed() == old(store.Processed())
      ensures store.checkpoint == old(store.checkpoint)
      ensures AcksKept(old(store.notifications), store.notifications)
      ensures forall h :: h in old(store.evidence) ==>
        h in store.evidence && store.evidence[h] == old(store.evidence)[h]
      ensures forall h :: h in store.evidence && h !in old(store.evidence) ==>
        store.evidence[h].message in batch && store.evidence[h].message.Hash() == h
      ensures alive ==> todo == Unprocessed(batch, old(store.Processed()))
      ensures alive ==> forall i :: 0 <= i < |todo| ==> todo[i].Hash() in store.evidence
      ensures |old(store.fate)| >= |batch| ==> alive && |store.fate| == |old(store.fate)| - |batch|
      ensures |todo| <= |batch|
    {
      alive, todo := true, [];
      for i := 0 to |batch|
        invariant store.Tables() == old(store.Tables()) && store.Processed() == old(store.Processed())
        invariant store.checkpoint == old(store.checkpoint)
        invariant AcksKept(old(store.notifications), store.notifications)
        invariant forall h :: h in old(store.evidence) ==>
          h in store.evidence && store.evidence[h] == old(store.evidence)[h]
        invariant forall h :: h in store.evidence && h !in old(store.evidence) ==>
          store.evidence[h].message in batch && store.evidence[h].message.Hash() == h
        invariant todo == Unprocessed(batch[..i], old(store.Processed())) && |todo| <= i
        invariant |store.fate| == |old(store.fate)| - i
        invariant forall i :: 0 <= i < |todo| ==> todo[i].Hash() in store.evidence
      {
        var m := batch[i];
        alive := store.StoreEvidence(m);
        if !alive { return; }
        assert batch[..i + 1][..i] == batch[..i];
        var processed := store.IsEvidenceProcessed(m.Hash());
        if !processed {
          todo := todo + [m];
        }
      }
      assert batch[..|batch|] == batch;
    }

    /** inbox/orchestrator.py:95-104. */
    method ReconcileConfirmation(m: Message) returns (alive: bool, asked: bool)
      modifies store`reconciliations, store`notifications, store`fate
      ensures store.Tables() ==
        if alive then Reconcile(world, old(store.Tables()), m) else old(store.Tables())
      ensures asked <==> ToReconcile(world, m).Some?
      ensures (old(store.fate) != [] ==> alive) && |store.fate| >= |old(store.fate)| - 1
      ensures AcksKept(old(store.notifications), store.notifications)
    {
      alive, asked := true, ToReconcile(world, m).Some?;
      if asked {
        alive := store.RecordReconciliation(ReconciliationKey(world, m), ReconciliationRow(world, m));
      }
    }

    /** inbox/pipeline.py:116-139. */
    method RecordSignalEvent(m: Message) returns (alive: bool, recorded: bool)
      modifies store`events, store`notifications, store`fate
      ensures store.Tables() ==
        if alive then Record(world, old(store.Tables()), m) else old(store.Tables())
      ensures |store.events| == |old(store.events)| + if recorded then 1 else 0
      ensures (old(store.fate) != [] ==> alive) && |store.fate| >= |old(store.fate)| - 1
      ensures AcksKept(old(store.notifications), store.notifications)
    {
      alive, recorded := true, false;
      if Linked(world, m).Some? {
        alive, recorded := store.StorePipelineEvent(EventRow(world, store.events, m));
      }
    }

    /** inbox/notifications.py:34-56. */
    method ProcessSignal(m: Message) returns (alive: bool, emitted: bool)
      modifies store`notifications, store`fate
      ensures store.Tables() ==
        if alive then Notify(world, old(store.Tables()), m) else old(store.Tables())
      ensures |store.Tables().notifications| == |old(store.Tables()).notifications| + if emitted then 1 else 0
      ensures (old(store.fate) != [] ==> alive) && |store.fate| >= |old(store.fate)| - 1
      ensures AcksKept(old(store.notifications), store.notifications)
    {
      alive, emitted := true, false;
      if Notifies(world, m) {
        ghost var before := Strip(store.notifications);
        var key := NoteKey(world, m);
        assert key in before <==> key in store.notifications;
        alive, emitted := store.StoreNotification(key, NoteRow(world, m));
        assert InsertOrIgnore(before, key, NoteRow(world, m)).Keys == before.Keys + {key};
      }
    }

    /** inbox/orchestrator.py:89-112: the three effects, up to the write the process dies at. */
    method WriteEffects(m: Message) returns (alive: bool, recorded: bool, emitted: bool, asked: bool, ghost n: nat)
      modifies store`reconciliations, store`events, store`notifications, store`fate
      ensures n <= 3 && store.Tables() == Partly(world, old(store.Tables()), m, n)
      ensures alive ==> n == 3
      ensures |old(store.fate)| >= 3 ==> alive && |store.fate| >= |old(store.fate)| - 3
      ensures AcksKept(old(store.notifications), store.notifications)
      ensures |store.events| == |old(store.events)| + if recorded then 1 else 0
      ensures |store.Tables().notifications| == |old(store.Tables()).notifications| + if emitted then 1 else 0
      ensures asked <==> ToReconcile(world, m).Some?
    {
      n, recorded, emitted := 0, false, false;
      alive, asked := ReconcileConfirmation(m);
      if !alive { return; }
      n := 1;
      alive, recorded := RecordSignalEvent(m);
      if !alive { return; }
      n := 2;
      alive, emitted := ProcessSignal(m);
      if alive {
        n := 3;
      }
    }

    /** inbox/orchestrator.py:89-115. */
    method HandleMessage(m: Message) returns (alive: bool, recorded: bool, emitted: bool, asked: bool, ghost n: nat)
      requires m.Hash() in store.evidence
      modifies store
      ensures n <= 3 && store.Tables() == Partly(world, old(store.Tables()), m, n)
      ensures alive ==> n == 3
      ensures store.Processed() == if alive then old(store.Processed()) + {m.Hash()} else old(store.Processed())
      ensures SameEvidence(old(store.evidence), store.evidence)
      ensures store.checkpoint == old(store.checkpoint)
      ensures |old(store.fate)| >= 4 ==> alive && |store.fate| >= |old(store.fate)| - 4
      ensures AcksKept(old(store.notifications), store.notifications)
      ensures |store.events| == |old(store.events)| + if recorded then 1 else 0
      ensures |store.Tables().notifications| == |old(store.Tables()).notifications| + if emitted then 1 else 0
      ensures asked <==> ToReconcile(world, m).Some?
    {
      alive, recorded, emitted, asked, n := WriteEffects(m);
      if alive {
        alive := store.MarkEvidenceProcessed(m.Hash());
      }
    }

    /** Handling the message at position `p`, once everything before it is processed. */
    method HandleNext(m: Message, ghost p: nat) returns (alive: bool, recorded: bool, emitted: bool, asked: bool)
      requires Valid() && m.Hash() in store.evidence
      requires p < |transport.messages| && transport.messages[p] == m
      requires Hashes(transport.messages[..p]) <= store.Processed()
      requires partial > 0 ==> m.Hash() !in store.Processed()
      modifies this, store
      ensures Valid() && (alive ==> partial == 0)
      ensures store.Processed() == if alive then old(store.Processed()) + {m.Hash()} else old(store.Processed())
      ensures store.evidence.Keys == old(store.evidence).Keys
      ensures store.checkpoint == old(store.checkpoint)
      ensures |old(store.fate)| >= 4 ==> alive && |store.fate| >= |old(store.fate)| - 4
      ensures AcksKept(old(store.notifications), store.notifications)
      ensures |store.events| == |old(store.events)| + if recorded then 1 else 0
      ensures |store.Tables().notifications| == |old(store.Tables()).notifications| + if emitted then 1 else 0
      ensures asked <==> ToReconcile(world, m).Some?
    {
      ghost var t, processed := store.Tables(), store.Processed();
      ghost var n;
      alive, recorded, emitted, asked, n := HandleMessage(m);
      absorbed, partial := HandleKeepsConsistent(world, transport.messages, t, processed,
                                                 Cursor(store.checkpoint), absorbed, partial, p, n, alive);
    }

    /** inbox/orchestrator.py:83-119: every polled message in turn, until one is fatal. */
    method HandleBatch(todo: seq<Message>, ghost start: nat, ghost end: nat)
        returns (alive: bool, events: nat, notifications: nat, asked: nat)
      requires Valid() && start <= end <= |transport.messages|
      requires Hashes(transport.messages[..start]) <= store.Processed()
      requires todo == Unprocessed(transport.messages[start..end], store.Processed())
      requires forall x :: x in todo ==> x.Hash() in store.evidence
      modifies this, store
      ensures Valid() && store.checkpoint == old(store.checkpoint)
      ensures |old(store.fate)| >= 4 * |todo| ==> alive && |store.fate| >= |old(store.fate)| - 4 * |todo|
      ensures AcksKept(old(store.notifications), store.notifications)
      ensures alive ==> Hashes(transport.messages[..end]) <= store.Processed()
      ensures |store.events| == |old(store.events)| + events
      ensures |store.Tables().notifications| == |old(store.Tables()).notifications| + notifications
      ensures alive ==> asked == ReconciliationsAsked(world, todo)
    {
      hide Consistent, Unprocessed, Hashes, Strip, ToReconcile;
      alive, events, notifications, asked := true, 0, 0, 0;
      ghost var polled, q := store.Processed(), start;
      var rest := todo;
      while rest != []
        invariant Valid() && store.checkpoint == old(store.checkpoint)
        invariant Remaining(transport.messages, rest, q, end, polled, store.Processed())
        invariant partial > 0 ==> store.Processed() == polled
        invariant forall x :: x in rest ==> x.Hash() in store.evidence
        invariant AcksKept(old(store.notifications), store.notifications)
        invariant |store.events| == |old(store.events)| + events
        invariant |store.Tables().notifications| == |old(store.Tables()).notifications| + notifications
        invariant |old(store.fate)| >= 4 * |todo| ==>
          |store.fate| - 4 * |rest| >= |old(store.fate)| - 4 * |todo|
        invariant asked + ReconciliationsAsked(world, rest) == ReconciliationsAsked(world, todo)
        decreases |rest|
      {
        ghost var p := RemainingStep(transport.messages, rest, q, end, polled, store.Processed());
        var recorded, emitted, asks;
        alive, recorded, emitted, asks := HandleNext(rest[0], p);
        events, notifications := events + (if recorded then 1 else 0), notifications + (if emitted then 1 else 0);
        if !alive { return; }
        asked := asked + if asks then 1 else 0;
        rest, q := rest[1..], p + 1;
      }
      RemainingDone(transport.messages, q, end, polled, store.Processed());
    }

    /** inbox/orchestrator.py:80-81. */
    method Poll(limit: int) returns (alive: bool, todo: seq<Message>, next: int, ghost start: nat, ghost end: nat)
      requires Valid()
      modifies store
      ensures Valid() && start <= end <= |transport.messages| && next <= end
      ensures limit >= 0 ==> next == CursorAfter(old(Cursor(store.checkpoint)), limit, |transport.messages|)
      ensures store.Tables() == old(store.Tables()) && store.checkpoint == old(store.checkpoint)
      ensures AcksKept(old(store.notifications), store.notifications)
      ensures store.Processed() == old(store.Processed()) && |todo| <= end - start
      ensures |old(store.fate)| >= end - start ==> alive && |store.fate| == |old(store.fate)| - (end - start)
      ensures limit >= 0 ==> start == old(Cursor(store.checkpoint)) && end == next
      ensures Hashes(transport.messages[..start]) <= store.Processed()
      ensures alive ==> todo == Unprocessed(transport.messages[start..end], store.Processed())
      ensures alive ==> forall x :: x in todo ==> x.Hash() in store.evidence
    {
      var batch;
      batch, next := transport.FetchMessages(Cursor(store.checkpoint), limit);
      start := FetchStart(Cursor(store.checkpoint), |transport.messages|);
      end := FetchEnd(Cursor(store.checkpoint), limit, |transport.messages|);
      HashesSplit(transport.messages, start, absorbed);
      alive, todo := StoreBatch(batch);
    }

    /** inbox/orchestrator.py:122. */
    method CommitCursor(next: int, ghost end: nat) returns (alive: bool)
      requires Valid() && next <= end <= |transport.messages|
      requires Hashes(transport.messages[..end]) <= store.Processed()
      modifies this, store
      ensures Valid()
      ensures store.Tables() == old(store.Tables())
      ensures store.checkpoint == if alive then Some(next) else old(store.checkpoint)
      ensures old(store.fate) != [] ==> alive
      ensures AcksKept(old(store.notifications), store.notifications)
    {
      absorbed := CommitKeepsConsistent(world, transport.messages, store.Tables(), store.Processed(),
                                        Cursor(store.checkpoint), absorbed, partial, end);
      alive := store.SaveCheckpoint(next);
    }

    /** inbox/orchestrator.py:74-129. `None` is a cycle that died; whatever it had written by
        then stays written. */
    method RunCycle(limit: int, fate: seq<seq<Acknowledgement>>)
        returns (r: Option<CycleResult>, ghost todo: seq<Message>)
      requires Valid()
      modifies this, store
      ensures Valid()
      ensures AcksKept(old(store.notifications), store.notifications)
      ensures store.checkpoint == if r.Some? then Some(r.value.cursor) else old(store.checkpoint)
      ensures r.Some? && limit >= 0 ==>
        r.value.cursor == CursorAfter(old(Cursor(store.checkpoint)), limit, |transport.messages|)
      ensures |fate| > 5 * |transport.messages| ==> r.Some?
      ensures r.Some? && limit >= 0 ==>
        todo == Unprocessed(transport.messages[old(Cursor(store.checkpoint))..r.value.cursor], old(store.Processed()))
      ensures r.Some? ==> r.value.ingested == r.value.signals == |todo|
      ensures r.Some? ==> r.value.reconciliations == ReconciliationsAsked(world, todo)
      ensures r.Some? ==> |store.events| == |old(store.events)| + r.value.events
      ensures r.Some? ==>
        |store.Tables().notifications| == |old(store.Tables()).notifications| + r.value.notifications
    {
      r := None;
      store.fate := fate;
      var alive, messages, next, start, end := Poll(limit);
      todo := messages;
      if !alive { return; }
      var events, notifications, asked;
      alive, events, notifications, asked := HandleBatch(messages, start, end);
      if !alive { return; }
      alive := CommitCursor(next, end);
      if !alive { return; }
      r := Some(CycleResult(|messages|, |messages|, events, notifications, asked, next));
    }

    /** Any interleaving of deliveries, acknowledgements and cycles with any batch limit,
        each cycle dying after any number of durable writes. */
    method RunSchedule(schedule: seq<Op>)
      requires Valid()
      modifies this, store, transport
      ensures Valid()
      ensures AcksKept(old(store.notifications), store.notifications)
      ensures transport.messages == old(transport.messages) + Delivered(schedule)
    {
      DeliveredNone(schedule);
      for i := 0 to |schedule|
        invariant Valid()
        invariant AcksKept(old(store.notifications), store.notifications)
        invariant transport.messages == old(transport.messages) + Delivered(schedule[..i])
      {
        DeliveredSnoc(schedule, i);
        match schedule[i]
        case Deliver(m) =>
          DeliverKeepsConsistent(world, transport.messages, store.Tables(), store.Processed(),
                                 Cursor(store.checkpoint), absorbed, partial, m);
          transport.AddMessage(m);
        case Acknowledge(a) =>
          var _ := store.AcknowledgeNotification(a);
        case Cycle(limit, fate) =>
          var _, _ := RunCycle(limit, fate);
      }
      assert schedule[..|schedule|] == schedule;
    }

    /** Enough cycles that nothing interrupts, with any positive limits, bring the store to the
        sequential pass over the whole mailbox. */
    method Drain(limits: nat -> int, fates: nat -> seq<seq<Acknowledgement>>) returns (cycles: nat)
      requires Valid()
      requires forall i :: limits(i) > 0 && |fates(i)| > 5 * |transport.messages|
      modifies this, store
      ensures Valid() && AcksKept(old(store.notifications), store.notifications)
      ensures store.Tables() == Pass(world, transport.messages) && store.Processed() == Hashes(transport.messages)
      ensures cycles <= |transport.messages| - old(Cursor(store.checkpoint))
    {
      cycles := 0;
      while Cursor(store.checkpoint) < |transport.messages|
        invariant Valid() && AcksKept(old(store.notifications), store.notifications)
        invariant Cursor(store.checkpoint) >= old(Cursor(store.checkpoint)) + cycles
        decreases |transport.messages| - Cursor(store.checkpoint)
      {
        var _, _ := RunCycle(limits(cycles), fates(cycles));
        cycles := cycles + 1;
      }
      DrainedIsSequential(world, transport.messages, store.Tables(), store.Processed(), absorbed, partial);
    }

    /** The refinement: whatever schedule came before - any deliveries, acknowledgements, limits
        and deaths - draining leaves exactly the sequential pass over all that was delivered. */
    method RunThenDrain(schedule: seq<Op>, limits: nat -> int, fates: nat -> seq<seq<Acknowledgement>>)
      requires Valid()
      requires forall i :: limits(i) > 0 && |fates(i)| > 5 * |transport.messages + Delivered(schedule)|
      modifies this, store, transport
      ensures Valid() && AcksKept(old(store.notifications), store.notifications)
      ensures store.Tables() == Pass(world, old(transport.messages) + Delivered(schedule))
    {
      RunSchedule(schedule);
      var _ := Drain(limits, fates);
    }
  }

  // ----- what a consistent store promises -----

  /** Every message below the committed cursor is PROCESSED with all its effects stored. */
  lemma BelowCursorComplete(w: World, mailbox: seq<Message>, t: Tables, processed: set<ContentHash>,
                            cursor: nat, k: nat, j: nat, i: nat)
    requires Consistent(w, mailbox, t, processed, cursor, k, j) && i < cursor
    ensures mailbox[i].Hash() in processed && Present(w, t, mailbox[i])
  {
    PrefixHashes(mailbox, k);
    PassPresent(w, mailbox[..k], mailbox[i]);
    if j > 0 {
      PartlyKeepsPresent(w, Pass(w, mailbox[..k]), mailbox[i], mailbox[k], j);
    }
  }

  /** The sequential pass over the first `k` messages is stored, nothing is stored twice, and
      whatever else is stored came from message `k`. */
  lemma OnlyNextIsPartial(w: World, mailbox: seq<Message>, t: Tables, processed: set<ContentHash>,
                          cursor: nat, k: nat, j: nat)
    requires Consistent(w, mailbox, t, processed, cursor, k, j)
    ensures DistinctIds(t.events)
    ensures Extends(Pass(w, mailbox[..k]), t)
    ensures j > 0 ==> OnlyFrom(Pass(w, mailbox[..k]), t, mailbox[k].Hash())
    ensures j == 0 ==> t == Pass(w, mailbox[..k])
  {
    EventIdsDistinct(w, mailbox[..k]);
    if j > 0 {
      PartlyExtends(w, Pass(w, mailbox[..k]), mailbox[k], j);
    }
  }

  ghost predicate Extends(a: Tables, b: Tables) {
    && a.events <= b.events
    && (forall r :: r in a.reconciliations ==> r in b.reconciliations && b.reconciliations[r] == a.reconciliations[r])
    && (forall n :: n in a.notifications ==> n in b.notifications && b.notifications[n] == a.notifications[n])
  }

  /** Every row of `b` that is not in `a` was caused by the message with this hash. */
  ghost predicate OnlyFrom(a: Tables, b: Tables, hash: ContentHash) {
    && (forall i :: |a.events| <= i < |b.events| ==> b.events[i].hash == hash)
    && (forall r :: r in b.reconciliations && r !in a.reconciliations ==> r.signal.hash == hash)
    && (forall n :: n in b.notifications && n !in a.notifications ==> n.signal.hash == hash)
  }

  lemma InsertExtends<K, V>(m: map<K, V>, k: K, v: V)
    ensures forall x :: x in m ==> x in InsertOrIgnore(m, k, v) && InsertOrIgnore(m, k, v)[x] == m[x]
    ensures forall x :: x in InsertOrIgnore(m, k, v) && x !in m ==> x == k
  {
  }

  lemma PartlyExtends(w: World, t: Tables, m: Message, j: nat)
    requires DistinctIds(t.events) && j <= 3
    ensures Extends(t, Partly(w, t, m, j)) && OnlyFrom(t, Partly(w, t, m, j), m.Hash())
    ensures DistinctIds(Partly(w, t, m, j).events)
  {
    PartlyFields(w, t, m, j);
    RecordKeepsDistinct(w, t, m);
    if ToReconcile(w, m).Some? {
      InsertExtends(t.reconciliations, ReconciliationKey(w, m), ReconciliationRow(w, m));
    }
    InsertExtends(t.notifications, NoteKey(w, m), NoteRow(w, m));
  }

  lemma PartlyKeepsPresent(w: World, t: Tables, m: Message, m': Message, j: nat)
    requires Present(w, t, m) && j <= 3
    ensures Present(w, Partly(w, t, m', j), m)
  {
    PartlyFields(w, t, m', j);
    if Linked(w, m).Some? {
      EventSurvives(w, t, EventKey(w, m), m');
    }
  }

  /** Once the cursor has reached the end of the mailbox, the store is the sequential pass. */
  lemma DrainedIsSequential(w: World, mailbox: seq<Message>, t: Tables, processed: set<ContentHash>,
                            k: nat, j: nat)
    requires Consistent(w, mailbox, t, processed, |mailbox|, k, j)
    ensures t == Pass(w, mailbox) && processed == Hashes(mailbox)
  {
    assert mailbox[..k] == mailbox;
  }

  function CursorAfter(cursor: nat, limit: int, length: nat): int {
    if cursor + limit < length then cursor + limit else length
  }
}
