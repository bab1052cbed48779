/** api/artifact_cache.py: metadata rows in SQL, bodies either inline or in an external object
    store, with every remote call and every commit allowed to fail. sha256 is modelled by the
    value that was hashed. */
module ArtifactCache {
  import opened Wrappers
  import Sorting
  import Strings

  const MAX_CACHE_ROWS := 500
  const GENERATION_VERSION := "artifact-contract-v1"

  newtype byte = x: int | 0 <= x < 256
  type Bytes = seq<byte>

  datatype BodyDigest = Sha256(body: Bytes)
  datatype CacheKey = CacheKey(text: string)
  datatype ObjectKey = Artifact(key: CacheKey)
  datatype Backend = PostgresPayload | SupabaseStorage

  datatype Request = Request(opportunity: string, truth: string, template: string, kind: string) {
    /** The joined text is what is hashed, so two requests may share a key. */
    function Key(): CacheKey {
      CacheKey(opportunity + "|" + truth + "|" + template + "|" + kind)
    }
  }

  datatype Row = Row(
    key: CacheKey, request: Request, contentType: string, payload: Option<Bytes>, backend: Backend,
    objectKey: Option<ObjectKey>, sha: Option<BodyDigest>, size: Option<nat>, version: string, createdAt: int)
  {
    predicate External() { backend == SupabaseStorage && objectKey.Some? }
  }

  /** How a remote call or a commit ends. A failed or interrupted call may still have taken
      effect; `Crash` is the process dying during it. */
  datatype Call = Done | Failed(applied: bool) | Crash(applied: bool) {
    predicate Applied() { Done? || applied }
  }

  ghost predicate NoCrash(calls: seq<Call>) {
    forall i :: 0 <= i < |calls| ==> !calls[i].Crash?
  }

  /** A call that reported failure after taking effect. */
  ghost predicate Misreports(calls: seq<Call>) {
    exists i :: 0 <= i < |calls| && calls[i] == Failed(true)
  }

  /** A call that failed, and the next one, made to compensate for it, that failed too. */
  ghost predicate FailsTwice(calls: seq<Call>) {
    exists i :: 0 <= i < |calls| - 1 && calls[i].Failed? && calls[i + 1].Failed?
  }

  /** `rest` is what is left of `calls`. */
  ghost predicate RestOf(rest: seq<Call>, calls: seq<Call>) {
    |rest| <= |calls| && rest == calls[|calls| - |rest|..]
  }

  lemma RestFacts(rest: seq<Call>, calls: seq<Call>)
    requires RestOf(rest, calls)
    ensures NoCrash(calls) ==> NoCrash(rest)
    ensures Misreports(rest) ==> Misreports(calls)
    ensures FailsTwice(rest) ==> FailsTwice(calls)
    ensures calls == [] ==> rest == []
  {
    var d := |calls| - |rest|;
    if i :| 0 <= i < |rest| && rest[i] == Failed(true) {
      assert calls[d + i] == Failed(true);
    }
    if i :| 0 <= i < |rest| - 1 && rest[i].Failed? && rest[i + 1].Failed? {
      assert calls[d + i].Failed? && calls[d + i + 1].Failed?;
    }
  }

  lemma RestSelf(calls: seq<Call>)
    ensures RestOf(calls, calls)
  {
  }

  lemma RestAgain(a: seq<Call>, b: seq<Call>, c: seq<Call>)
    requires RestOf(a, b) && RestOf(b, c)
    ensures RestOf(a, c)
  {
  }

  datatype StoreResult =
    | AlreadyStored | Stored
    | BindingMismatch | Misconfigured | DeleteFailed | UploadFailed | UploadConflict
    | PersistenceFailed | CleanupFailed | EvictionFailed | Crashed

  datatype GetResult = Missing | Body(contentType: string, bytes: Bytes) | StorageError | BadBinding

  function Find(rows: seq<Row>, key: CacheKey): Option<Row> {
    if rows == [] then None
    else if rows[0].key == key then Some(rows[0])
    else Find(rows[1..], key)
  }

  /** api/artifact_cache.py:215-229. */
  predicate BoundTo(row: Row, request: Request) {
    row.request == request && row.version == GENERATION_VERSION && row.key == request.Key()
  }

  predicate StaleFor(row: Row, request: Request) {
    row.request.opportunity == request.opportunity && row.request.kind == request.kind
    && row.request.template == request.template && row.request.truth != request.truth
  }

  function Filter(rows: seq<Row>, p: Row -> bool): (r: seq<Row>)
    ensures forall x :: x in r <==> x in rows && p(x)
    ensures |r| <= |rows|
  {
    if rows == [] then []
    else (if p(rows[0]) then [rows[0]] else []) + Filter(rows[1..], p)
  }

  function Stale(rows: seq<Row>, request: Request): seq<Row> {
    Filter(rows, (row: Row) => StaleFor(row, request))
  }

  function Without(rows: seq<Row>, gone: seq<Row>): seq<Row> {
    Filter(rows, (row: Row) => row !in gone)
  }

  predicate Older(a: Row, b: Row) {
    a.createdAt <= b.createdAt
  }

  /** The oldest rows beyond the bound. */
  function Victims(rows: seq<Row>): (v: seq<Row>)
    ensures |v| == if |rows| > MAX_CACHE_ROWS then |rows| - MAX_CACHE_ROWS else 0
    ensures forall x :: x in v ==> x in rows
  {
    if |rows| > MAX_CACHE_ROWS then
      Sorting.SortMembers(rows, Older);
      Sorting.Sort(rows, Older)[..|rows| - MAX_CACHE_ROWS]
    else []
  }

  ghost predicate DistinctKeys(rows: seq<Row>) {
    forall i, j :: 0 <= i < j < |rows| ==> rows[i].key != rows[j].key
  }

  /** Complete metadata, bound to its own key. */
  ghost predicate WellFormed(row: Row) {
    && BoundTo(row, row.request) && row.sha.Some? && row.size == Some(|row.sha.value.body|)
    && match row.backend
       case PostgresPayload => row.objectKey.None? && row.payload == Some(row.sha.value.body)
       case SupabaseStorage => row.objectKey == Some(Artifact(row.key)) && row.payload.None?
  }

  /** The object behind an external row is gone or is, byte for byte, the payload the row was
      created with. */
  ghost predicate Intact(row: Row, objects: map<ObjectKey, Bytes>) {
    row.External() && row.objectKey.value in objects ==>
      row.sha.Some? && objects[row.objectKey.value] == row.sha.value.body
  }

  ghost predicate Sound(rows: seq<Row>, objects: map<ObjectKey, Bytes>) {
    DistinctKeys(rows) && forall r :: r in rows ==> WellFormed(r) && Intact(r, objects)
  }

  ghost function Referenced(rows: seq<Row>): set<ObjectKey> {
    set r | r in rows && r.External() :: r.objectKey.value
  }

  /** Objects no row points to. */
  ghost function Orphans(rows: seq<Row>, objects: map<ObjectKey, Bytes>): set<ObjectKey> {
    objects.Keys - Referenced(rows)
  }

  // ----- facts about the row table -----

  lemma {:induction false} FindFirst(rows: seq<Row>, key: CacheKey)
    ensures Find(rows, key).Some? ==> Find(rows, key).value in rows && Find(rows, key).value.key == key
    ensures Find(rows, key).None? ==> forall r :: r in rows ==> r.key != key
  {
    if rows != [] {
      FindFirst(rows[1..], key);
    }
  }

  lemma FindUnique(rows: seq<Row>, row: Row)
    requires DistinctKeys(rows) && row in rows
    ensures Find(rows, row.key) == Some(row)
  {
    FindFirst(rows, row.key);
    var i :| 0 <= i < |rows| && rows[i] == row;
    var found := Find(rows, row.key).value;
    var j :| 0 <= j < |rows| && rows[j] == found;
    assert i == j;
  }

  lemma {:induction false} FilterDistinct(rows: seq<Row>, p: Row -> bool)
    requires DistinctKeys(rows)
    ensures DistinctKeys(Filter(rows, p))
  {
    if rows != [] {
      FilterDistinct(rows[1..], p);
      var rest := Filter(rows[1..], p);
      forall i | 0 <= i < |rest| ensures rest[i].key != rows[0].key {
        assert rest[i] in rows[1..];
      }
    }
  }

  lemma SoundDistinct(rows: seq<Row>, objects: map<ObjectKey, Bytes>)
    requires Sound(rows, objects)
    ensures DistinctKeys(rows)
  {
  }

  /** Requests whose fields are free of bars have keys of their own... */
  lemma KeysSeparate(a: Request, b: Request)
    requires '|' !in a.opportunity + a.truth + a.template && '|' !in b.opportunity + b.truth + b.template
    ensures a.Key() == b.Key() <==> a == b
  {
    if a.Key() == b.Key() {
      KeyText(a);
      KeyText(b);
      Strings.SplitAt('|', a.opportunity, a.truth + "|" + (a.template + "|" + a.kind),
                      b.opportunity, b.truth + "|" + (b.template + "|" + b.kind));
      Strings.SplitAt('|', a.truth, a.template + "|" + a.kind, b.truth, b.template + "|" + b.kind);
      Strings.SplitAt('|', a.template, a.kind, b.template, b.kind);
    }
  }

  lemma KeyText(r: Request)
    ensures r.Key().text == r.opportunity + "|" + (r.truth + "|" + (r.template + "|" + r.kind))
  {
  }

  /** ... and others may share one. */
  lemma KeysCollide()
    ensures exists a: Request, b: Request :: a != b && a.Key() == b.Key()
  {
    var a, b := Request("o|t", "h", "x", "k"), Request("o", "t|h", "x", "k");
    assert a.opportunity != b.opportunity;
    assert a.Key().text == "o|t" + "|" + "h" + "|" + "x" + "|" + "k" == "o|t|h|x|k";
    assert b.Key().text == "o" + "|" + "t|h" + "|" + "x" + "|" + "k" == "o|t|h|x|k";
  }

  /** No stale row has the object of a key that has no row. */
  lemma StaleElsewhere(rows: seq<Row>, objects: map<ObjectKey, Bytes>, request: Request)
    requires Sound(rows, objects) && forall r :: r in rows ==> r.key != request.Key()
    ensures Artifact(request.Key()) !in Referenced(Stale(rows, request))
  {
  }

  /** Dropping rows keeps the table sound. */
  lemma WithoutSound(rows: seq<Row>, gone: seq<Row>, objects: map<ObjectKey, Bytes>)
    requires Sound(rows, objects)
    ensures Sound(Without(rows, gone), objects)
  {
    FilterDistinct(rows, (row: Row) => row !in gone);
  }

  /** Dropping rows whose objects are gone orphans nothing. */
  lemma WithoutOrphans(rows: seq<Row>, gone: seq<Row>, objects: map<ObjectKey, Bytes>)
    requires forall r :: r in gone && r.External() ==> r.objectKey.value !in objects
    ensures Orphans(Without(rows, gone), objects) <= Orphans(rows, objects)
  {
    forall k | k in objects && k in Referenced(rows) ensures k in Referenced(Without(rows, gone)) {
      var r :| r in rows && r.External() && r.objectKey.value == k;
      assert r in Without(rows, gone);
    }
  }

  lemma {:induction false} WithoutCount(rows: seq<Row>, gone: seq<Row>)
    requires DistinctKeys(rows) && DistinctKeys(gone)
    requires forall x :: x in gone ==> x in rows
    ensures |Without(rows, gone)| == |rows| - |gone|
  {
    if rows != [] {
      var r, rest := rows[0], rows[1..];
      if r in gone {
        var i :| 0 <= i < |gone| && gone[i] == r;
        var others := gone[..i] + gone[i + 1..];
        forall x | x in others ensures x in rest {
          assert x in gone;
        }
        FilterAgrees(rest, gone, others, r);
        WithoutCount(rest, others);
      } else {
        WithoutCount(rest, gone);
      }
    } else {
      Sorting.HeadIsMember(gone);
    }
  }

  lemma {:induction false} FilterAgrees(rows: seq<Row>, gone: seq<Row>, others: seq<Row>, r: Row)
    requires forall i :: 0 <= i < |rows| ==> rows[i] != r
    requires forall x :: x != r ==> (x in gone <==> x in others)
    ensures Without(rows, gone) == Without(rows, others)
  {
    if rows != [] {
      FilterAgrees(rows[1..], gone, others, r);
    }
  }

  function KeyOf(row: Row): CacheKey { row.key }

  lemma SortedRowsDistinct(rows: seq<Row>)
    requires DistinctKeys(rows)
    ensures DistinctKeys(Sorting.Sort(rows, Older))
  {
    Sorting.PermutationDistinct(rows, Sorting.Sort(rows, Older), KeyOf);
    assert forall i, j :: 0 <= i < j < |rows| ==>
      KeyOf(Sorting.Sort(rows, Older)[i]) != KeyOf(Sorting.Sort(rows, Older)[j]);
  }

  /** After eviction at most the bound is left. */
  lemma EvictionBound(rows: seq<Row>)
    requires DistinctKeys(rows)
    ensures |Without(rows, Victims(rows))| == if |rows| > 500 then 500 else |rows|
  {
    SortedRowsDistinct(rows);
    WithoutCount(rows, Victims(rows));
  }

  /** A row newer than every other is never evicted. */
  lemma NewestSurvives(rows: seq<Row>, row: Row)
    requires DistinctKeys(rows) && row in rows
    requires forall r :: r in rows && r != row ==> r.createdAt < row.createdAt
    ensures row in Without(rows, Victims(rows))
  {
    if |rows| > MAX_CACHE_ROWS {
      var s, n := Sorting.Sort(rows, Older), |rows| - MAX_CACHE_ROWS;
      Sorting.SortSorted(rows, Older);
      Sorting.SortMembers(rows, Older);
      SortedRowsDistinct(rows);
      assert s[n] in rows;
      forall i | 0 <= i < n ensures s[i] != row {
        assert Older(s[i], s[n]);
      }
    }
  }

  // ----- single steps -----

  /** Objects are created once and never overwritten. */
  ghost predicate NeverOverwritten(before: map<ObjectKey, Bytes>, after: map<ObjectKey, Bytes>) {
    forall k :: k in before && k in after ==> after[k] == before[k]
  }

  /** Losing objects breaks no row. */
  lemma DeletionSound(rows: seq<Row>, before: map<ObjectKey, Bytes>, after: map<ObjectKey, Bytes>)
    requires Sound(rows, before) && after.Keys <= before.Keys && NeverOverwritten(before, after)
    ensures Sound(rows, after) && Orphans(rows, after) <= Orphans(rows, before)
  {
  }

  /** A new object that no row refers to breaks no row. */
  lemma UploadSound(rows: seq<Row>, objects: map<ObjectKey, Bytes>, key: CacheKey, body: Bytes)
    requires Sound(rows, objects) && Artifact(key) !in objects && forall r :: r in rows ==> r.key != key
    ensures Sound(rows, objects[Artifact(key) := body])
    ensures Orphans(rows, objects[Artifact(key) := body]) == Orphans(rows, objects) + {Artifact(key)}
  {
  }

  function NewRow(request: Request, contentType: string, body: Bytes, backend: Backend, now: int): Row {
    var key := request.Key();
    Row(key, request, contentType,
        if backend == PostgresPayload then Some(body) else None, backend,
        if backend == SupabaseStorage then Some(Artifact(key)) else None,
        Some(Sha256(body)), Some(|body|), GENERATION_VERSION, now)
  }

  lemma AppendSound(rows: seq<Row>, objects: map<ObjectKey, Bytes>, row: Row)
    requires Sound(rows, objects) && WellFormed(row) && Intact(row, objects)
    requires forall r :: r in rows ==> r.key != row.key
    ensures Sound(rows + [row], objects)
    ensures Orphans(rows + [row], objects) <= Orphans(rows, objects)
    ensures row.External() ==> Orphans(rows + [row], objects) == Orphans(rows, objects) - {row.objectKey.value}
  {
    var added := if row.External() then {row.objectKey.value} else {};
    assert forall k :: k in Referenced(rows + [row]) <==> k in Referenced(rows) + added by {
      forall k | k in Referenced(rows) ensures k in Referenced(rows + [row]) {
        var r :| r in rows && r.External() && r.objectKey.value == k;
        assert r in rows + [row];
      }
      if row.External() {
        assert row in rows + [row];
      }
    }
  }

  /** `row` was created for this request, with this type and these bytes. */
  predicate CreatedWith(row: Row, request: Request, contentType: string, bytes: Bytes) {
    row.request == request && row.contentType == contentType && row.sha == Some(Sha256(bytes))
  }

  predicate Reachable(row: Row, objects: map<ObjectKey, Bytes>, call: Call) {
    row.backend == PostgresPayload || (call.Done? && Artifact(row.key) in objects)
  }

  /** The table a successful first commit leaves: stale rows replaced by the new one. */
  function Replaced(rows: seq<Row>, request: Request, row: Row): seq<Row> {
    Without(rows, Stale(rows, request)) + [row]
  }

  function Evicted(rows: seq<Row>): seq<Row> {
    Without(rows, Victims(rows))
  }

  lemma EvictedBound(rows: seq<Row>, objects: map<ObjectKey, Bytes>)
    requires Sound(rows, objects)
    ensures |Evicted(rows)| <= MAX_CACHE_ROWS && (|rows| <= MAX_CACHE_ROWS ==> Evicted(rows) == rows)
  {
    EvictionBound(rows);
    WithoutNone(rows);
  }

  lemma EvictedSound(rows: seq<Row>, objects: map<ObjectKey, Bytes>)
    requires Sound(rows, objects)
    requires forall r :: r in Victims(rows) && r.External() ==> r.objectKey.value !in objects
    ensures Sound(Evicted(rows), objects) && Orphans(Evicted(rows), objects) <= Orphans(rows, objects)
  {
    WithoutSound(rows, Victims(rows), objects);
    WithoutOrphans(rows, Victims(rows), objects);
  }

  lemma OverwritesNothing(objects: map<ObjectKey, Bytes>)
    ensures NeverOverwritten(objects, objects)
  {
  }

  datatype StoreCall = StoreCall(
    request: Request, contentType: string, payload: Bytes, backend: Option<Backend>, now: int, schedule: seq<Call>)

  class Cache {
    var rows: seq<Row>
    var objects: map<ObjectKey, Bytes>
    /** How the next remote calls and commits end; once used up, they succeed. */
    var faults: seq<Call>

    ghost predicate Valid()
      reads this
    {
      Sound(rows, objects)
    }

    constructor ()
      ensures Valid() && rows == [] && objects == map[] && faults == []
    {
      rows, objects, faults := [], map[], [];
    }

    method Next() returns (c: Call)
      modifies this`faults
      ensures c == if old(faults) == [] then Done else old(faults)[0]
      ensures faults == if old(faults) == [] then [] else old(faults)[1..]
      ensures RestOf(faults, old(faults)) && (c.Crash? ==> !NoCrash(old(faults)))
    {
      c := Done;
      if faults != [] {
        c, faults := faults[0], faults[1..];
      }
    }

    method DeleteObject(key: ObjectKey) returns (c: Call)
      modifies this`faults, this`objects
      ensures c == if old(faults) == [] then Done else old(faults)[0]
      ensures objects == if c.Applied() then old(objects) - {key} else old(objects)
      ensures RestOf(faults, old(faults)) && (c.Crash? ==> !NoCrash(old(faults)))
    {
      c := Next();
      if c.Applied() {
        objects := objects - {key};
      }
    }

    /** `_delete_external` over a list of rows, stopping at the first failure. */
    method DeleteExternal(gone: seq<Row>) returns (c: Call)
      modifies this`faults, this`objects
      ensures objects.Keys <= old(objects).Keys && NeverOverwritten(old(objects), objects)
      ensures forall k :: k in old(objects) && k !in objects ==> k in Referenced(gone)
      ensures c.Done? ==> forall r :: r in gone && r.External() ==> r.objectKey.value !in objects
      ensures RestOf(faults, old(faults)) && (c.Crash? ==> !NoCrash(old(faults)))
      ensures old(faults) == [] ==> c.Done?
      ensures gone == [] ==> c.Done? && faults == old(faults) && objects == old(objects)
    {
      hide RestOf, NoCrash;
      c := Done;
      RestSelf(faults);
      for i := 0 to |gone|
        invariant objects.Keys <= old(objects).Keys && NeverOverwritten(old(objects), objects)
        invariant forall k :: k in old(objects) && k !in objects ==> k in Referenced(gone)
        invariant forall j :: 0 <= j < i && gone[j].External() ==> gone[j].objectKey.value !in objects
        invariant RestOf(faults, old(faults))
        invariant i == 0 ==> faults == old(faults) && objects == old(objects)
      {
        if gone[i].External() {
          assert gone[i].objectKey.value in Referenced(gone);
          RestFacts(faults, old(faults));
          ghost var left := faults;
          c := DeleteObject(gone[i].objectKey.value);
          RestAgain(faults, left, old(faults));
          if !c.Done? { return; }
        }
      }
      c := Done;
    }

    /** api/artifact_cache.py:147-161. `created` is the upload's return value. A failed upload
        changes the store only if a call died, or reported failure after taking effect. */
    method Upload(key: ObjectKey, body: Bytes) returns (r: Option<StoreResult>, created: bool)
      modifies this`faults, this`objects
      ensures objects == old(objects) || (key !in old(objects) && objects == old(objects)[key := body])
      ensures r.None? ==> key in objects && objects[key] == body && (created <==> key !in old(objects))
      ensures r.Some? ==> r.value in {UploadFailed, UploadConflict, Crashed}
      ensures r.Some? && objects != old(objects) ==> Blames(r.value, old(faults))
      ensures r == Some(Crashed) ==> !NoCrash(old(faults))
      ensures RestOf(faults, old(faults))
      ensures old(faults) == [] ==> (r.Some? <==> key in old(objects) && old(objects)[key] != body)
      ensures key !in old(objects) && old(faults) != [] && old(faults)[0].Done? ==>
        r.None? && faults == old(faults)[1..]
    {
      hide RestOf, FailsTwice;
      created, r := false, None;
      var present := key in objects;
      var c := Next();
      ghost var left := faults;
      if c.Applied() && !present {
        objects := objects[key := body];
      }
      match c
      case Crash(_) => return Some(Crashed), false;
      case Failed(_) => return Some(UploadFailed), false;
      case Done =>
      if !present {
        created := true;
        return;
      }
      RestFacts(faults, old(faults));
      c := Next();
      RestAgain(faults, left, old(faults));
      if c.Crash? { return Some(Crashed), false; }
      if c.Failed? { return Some(UploadFailed), false; }
      if |objects[key]| != |body| || Sha256(objects[key]) != Sha256(body) {
        return Some(UploadConflict), false;
      }
    }

    /** api/artifact_cache.py:232-245. */
    method Get(request: Request, call: Call) returns (r: GetResult)
      requires Valid()
      ensures r.Missing? <==> forall row :: row in rows ==> row.key != request.Key()
      ensures r.Body? ==> exists row :: row in rows && CreatedWith(row, request, r.contentType, r.bytes)
      ensures forall row :: row in rows && row.request == request && Reachable(row, objects, call) ==>
        r == Body(row.contentType, row.sha.value.body)
      ensures forall row :: row in rows && row.request == request && !Reachable(row, objects, call) ==>
        r == StorageError
      ensures r.BadBinding? <==> exists row :: row in rows && row.key == request.Key() && row.request != request
    {
      FindFirst(rows, request.Key());
      var found := Find(rows, request.Key());
      if found.None? { return Missing; }
      var row := found.value;
      forall x | x in rows && x.key == row.key ensures x == row {
        FindUnique(rows, x);
      }
      if !BoundTo(row, request) { return BadBinding; }
      if row.backend == PostgresPayload {
        return if row.payload.None? then StorageError else Body(row.contentType, row.payload.value);
      }
      if row.objectKey.None? || !call.Done? || row.objectKey.value !in objects { return StorageError; }
      var body := objects[row.objectKey.value];
      if row.size.None? || row.sha.None? || |body| != row.size.value || Sha256(body) != row.sha.value {
        return StorageError;
      }
      return Body(row.contentType, body);
    }

    /** api/artifact_cache.py:295-302, after the new row is committed. */
    method Evict() returns (r: StoreResult)
      requires Valid()
      modifies this
      ensures Valid() && NeverOverwritten(old(objects), objects) && objects.Keys <= old(objects).Keys
      ensures r in {Stored, EvictionFailed, Crashed}
      ensures Orphans(rows, objects) <= old(Orphans(rows, objects))
      ensures rows == old(rows) || rows == Evicted(old(rows))
      ensures r == Stored ==> rows == Evicted(old(rows)) && |rows| <= MAX_CACHE_ROWS
      ensures forall k :: k in old(objects) && k !in objects ==> k in Referenced(Victims(old(rows)))
      ensures old(faults) == [] ==> r == Stored
      ensures r == Crashed ==> !NoCrash(old(faults))
    {
      hide RestOf, NoCrash, Sound, Orphans, Victims, Evicted, Referenced, NeverOverwritten, DistinctKeys;
      EvictedBound(rows, objects);
      OverwritesNothing(objects);
      if |rows| <= MAX_CACHE_ROWS { return Stored; }
      var c := DeleteExternal(Victims(rows));
      DeletionSound(rows, old(objects), objects);
      if c.Crash? { return Crashed; }
      if c.Failed? { return EvictionFailed; }
      RestFacts(faults, old(faults));
      EvictedSound(rows, objects);
      c := Next();
      if c.Applied() {
        rows := Evicted(rows);
      }
      r := match c case Done => Stored case Failed(_) => EvictionFailed case Crash(_) => Crashed;
    }

    /** api/artifact_cache.py:288-294: take back this call's upload. */
    method Compensate(uploaded: bool, key: ObjectKey) returns (r: StoreResult)
      modifies this`faults, this`objects
      ensures objects == old(objects) || (uploaded && objects == old(objects) - {key})
      ensures r in {PersistenceFailed, CleanupFailed, Crashed}
      ensures r == PersistenceFailed && uploaded ==> key !in objects
      ensures r == Crashed ==> !NoCrash(old(faults))
      ensures r == CleanupFailed ==> uploaded && old(faults) != [] && old(faults)[0].Failed?
      ensures RestOf(faults, old(faults))
      ensures old(faults) == [] || old(faults)[0].Done? ==> r == PersistenceFailed
    {
      RestSelf(faults);
      r := PersistenceFailed;
      if uploaded {
        var d := DeleteObject(key);
        r := match d case Done => PersistenceFailed case Failed(_) => CleanupFailed case Crash(_) => Crashed;
      }
    }

    /** api/artifact_cache.py:285-294: commit the replacement, or undo the upload. */
    method CommitRow(pending: seq<Row>, uploaded: bool, key: ObjectKey) returns (r: Option<StoreResult>)
      requires Valid() && Sound(pending, objects)
      modifies this
      ensures Valid() && NeverOverwritten(old(objects), objects)
      ensures rows == old(rows) || rows == pending
      ensures objects == old(objects) || (uploaded && objects == old(objects) - {key} && r.Some?)
      ensures r.None? ==> rows == pending
      ensures r.Some? ==> r.value in {PersistenceFailed, CleanupFailed, Crashed}
      ensures r == Some(PersistenceFailed) && uploaded ==> key !in objects
      ensures old(faults) == [] ==> r.None?
      ensures RestOf(faults, old(faults)) && (r == Some(Crashed) ==> !NoCrash(old(faults)))
      ensures r == Some(CleanupFailed) ==> uploaded && FailsTwice(old(faults))
      ensures old(faults) != [] && old(faults)[0] == Failed(true) && (|old(faults)| == 1 || old(faults)[1].Done?) ==>
        rows == pending && r == Some(PersistenceFailed)
    {
      hide Sound, RestOf;
      var c := Next();
      if c.Applied() {
        rows := pending;
      }
      if c.Done? { return None; }
      if c.Crash? { return Some(Crashed); }
      RestFacts(faults, old(faults));
      ghost var left := faults;
      var undone := Compensate(uploaded, key);
      RestAgain(faults, left, old(faults));
      DeletionSound(rows, old(objects), objects);
      r := Some(undone);
    }

    /** api/artifact_cache.py:264-278: drop stale objects, then put the new body in place. */
    method Prepare(request: Request, body: Bytes, backend: Backend) returns (r: Option<StoreResult>, uploaded: bool)
      requires Valid() && forall row :: row in rows ==> row.key != request.Key()
      modifies this`faults, this`objects
      ensures Valid() && NeverOverwritten(old(objects), objects)
      ensures Sound(Without(rows, Stale(rows, request)), objects)
      ensures forall k :: k in old(objects) && k !in objects ==> k in Referenced(Stale(rows, request))
      ensures Orphans(rows, objects) <= old(Orphans(rows, objects)) + {Artifact(request.Key())}
      ensures r.Some? && !Blames(r.value, old(faults)) ==> Orphans(rows, objects) <= old(Orphans(rows, objects))
      ensures r.None? ==>
        Orphans(Without(rows, Stale(rows, request)), objects) <= old(Orphans(rows, objects)) + {Artifact(request.Key())}
      ensures r.None? && !uploaded ==> Orphans(rows, objects) <= old(Orphans(rows, objects))
      ensures r.None? && backend == SupabaseStorage ==> HasBody(objects, request, body)
      ensures r.None? && backend == PostgresPayload ==>
        Orphans(Without(rows, Stale(rows, request)), objects) <= old(Orphans(rows, objects))
      ensures r.Some? ==> r.value in {DeleteFailed, UploadFailed, UploadConflict, Crashed}
      ensures uploaded ==> backend == SupabaseStorage
      ensures RestOf(faults, old(faults)) && (r == Some(Crashed) ==> !NoCrash(old(faults)))
      ensures old(faults) == [] && r.Some? ==> Conflicts(old(objects), request, body)
      ensures backend == SupabaseStorage && Strands(rows, old(objects), request, old(faults)) ==>
        r.None? && uploaded && faults == old(faults)[1..]
    {
      hide RestOf, NoCrash, Blames, Sound, Orphans, Without, Stale, HasBody;
      uploaded, r := false, None;
      var c := DropStale(request);
      if c.Crash? { return Some(Crashed), false; }
      if c.Failed? { return Some(DeleteFailed), false; }
      BlamesRest(faults, old(faults));
      RestFacts(faults, old(faults));
      if backend == SupabaseStorage {
        ghost var left := faults;
        r, uploaded := PutBody(request, body, Without(rows, Stale(rows, request)));
        RestAgain(faults, left, old(faults));
      }
    }

    /** api/artifact_cache.py:264-270: remove the objects of stale rows. */
    method DropStale(request: Request) returns (c: Call)
      requires Valid() && forall row :: row in rows ==> row.key != request.Key()
      modifies this`faults, this`objects
      ensures Valid() && NeverOverwritten(old(objects), objects) && objects.Keys <= old(objects).Keys
      ensures var kept := Without(rows, Stale(rows, request));
        && Sound(kept, objects) && (forall x :: x in kept ==> x in rows)
        && (c.Done? ==> Orphans(kept, objects) <= old(Orphans(rows, objects)))
      ensures Orphans(rows, objects) <= old(Orphans(rows, objects))
      ensures forall k :: k in old(objects) && k !in objects ==> k in Referenced(Stale(rows, request))
      ensures Artifact(request.Key()) in objects <==> Artifact(request.Key()) in old(objects)
      ensures RestOf(faults, old(faults)) && (c.Crash? ==> !NoCrash(old(faults)))
      ensures old(faults) == [] ==> c.Done?
      ensures Stale(rows, request) == [] ==> c.Done? && faults == old(faults) && objects == old(objects)
    {
      hide RestOf, NoCrash, Sound, Orphans, Referenced;
      var stale := Stale(rows, request);
      StaleElsewhere(rows, objects, request);
      c := DeleteExternal(stale);
      DeletionSound(rows, old(objects), objects);
      WithoutSound(rows, stale, objects);
      if c.Done? {
        WithoutOrphans(rows, stale, objects);
      }
    }

    /** api/artifact_cache.py:276-278: put the new body in place. `kept` are the rows that stay. */
    method PutBody(request: Request, body: Bytes, ghost kept: seq<Row>) returns (r: Option<StoreResult>, uploaded: bool)
      requires Valid() && Sound(kept, objects)
      requires forall row :: row in rows || row in kept ==> row.key != request.Key()
      modifies this`faults, this`objects
      ensures Valid() && Sound(kept, objects)
      ensures objects == old(objects)
        || (Artifact(request.Key()) !in old(objects) && objects == old(objects)[Artifact(request.Key()) := body])
      ensures Orphans(rows, objects) <= old(Orphans(rows, objects)) + {Artifact(request.Key())}
      ensures Orphans(kept, objects) <= old(Orphans(kept, objects)) + {Artifact(request.Key())}
      ensures r.Some? && !Blames(r.value, old(faults)) ==> objects == old(objects)
      ensures r.None? && !uploaded ==> objects == old(objects)
      ensures r.None? ==> HasBody(objects, request, body)
      ensures r.Some? ==> r.value in {UploadFailed, UploadConflict, Crashed}
      ensures RestOf(faults, old(faults)) && (r == Some(Crashed) ==> !NoCrash(old(faults)))
      ensures old(faults) == [] && r.Some? ==> Conflicts(old(objects), request, body)
      ensures Artifact(request.Key()) !in old(objects) && old(faults) != [] && old(faults)[0].Done? ==>
        r.None? && uploaded && faults == old(faults)[1..]
    {
      hide RestOf, NoCrash, Sound, Orphans, Blames;
      r, uploaded := Upload(Artifact(request.Key()), body);
      if objects != old(objects) {
        UploadSound(rows, old(objects), request.Key(), body);
        UploadSound(kept, old(objects), request.Key(), body);
      }
      if r.Some? {
        uploaded := false;
      }
    }

    /** api/artifact_cache.py:264-302, when no row has this key yet. */
    method Insert(request: Request, row: Row, body: Bytes) returns (r: StoreResult)
      requires Valid() && forall x :: x in rows ==> x.key != request.Key()
      requires WellFormed(row) && row.key == request.Key() && row.sha == Some(Sha256(body))
      modifies this
      ensures Valid() && NeverOverwritten(old(objects), objects)
      ensures Orphans(rows, objects) <= old(Orphans(rows, objects)) + {Artifact(request.Key())}
      ensures !Blames(r, old(faults)) ==> Orphans(rows, objects) <= old(Orphans(rows, objects))
      ensures OnlyDrops(old(objects), objects, old(rows), request, row)
      ensures Explained(r, old(faults))
      ensures r !in {AlreadyStored, BindingMismatch, Misconfigured}
      ensures rows == old(rows) || rows == Replaced(old(rows), request, row)
        || rows == Evicted(Replaced(old(rows), request, row))
      ensures r == Stored ==> rows == Evicted(Replaced(old(rows), request, row)) && |rows| <= MAX_CACHE_ROWS
      ensures r == Stored && row in rows && row.External() ==> HasBody(objects, request, body)
      ensures old(faults) == [] && r != Stored ==> Conflicts(old(objects), request, body)
      ensures row.External() && Strands(old(rows), old(objects), request, old(faults)) ==>
        r == PersistenceFailed && rows == Replaced(old(rows), request, row) && Artifact(request.Key()) !in objects
    {
      hide RestOf, NoCrash, Misreports, FailsTwice, OnlyDrops, Referenced, Victims;
      var prepared, uploaded := Prepare(request, body, row.backend);
      ghost var first := objects;
      RestFacts(faults, old(faults));
      Drops(old(objects), first, first, first, rows, request, row);
      if prepared.Some? { return prepared.value; }
      var pending := Replaced(rows, request, row);
      AppendSound(Without(rows, Stale(rows, request)), objects, row);
      ghost var left := faults;
      var committed := CommitRow(pending, uploaded, Artifact(request.Key()));
      ghost var second := objects;
      RestAgain(faults, left, old(faults));
      RestFacts(faults, old(faults));
      Drops(old(objects), first, second, second, old(rows), request, row);
      if committed.Some? { return committed.value; }
      r := Evict();
      Drops(old(objects), first, second, objects, old(rows), request, row);
      if r == Stored && row in rows {
        VictimKeys(pending, row);
      }
    }

    /** api/artifact_cache.py:255-302. `backend` is `None` when the environment names no usable
        backend. New objects without a row come from a crash, from a commit and a compensation
        that both failed, or from an upload that failed after taking effect - and the schedule
        shows which. */
    method Store(request: Request, contentType: string, payload: Bytes, backend: Option<Backend>, now: int,
                 schedule: seq<Call>)
        returns (r: StoreResult)
      requires Valid()
      modifies this
      ensures Valid() && NeverOverwritten(old(objects), objects)
      ensures Orphans(rows, objects) <= old(Orphans(rows, objects)) + {Artifact(request.Key())}
      ensures !Blames(r, schedule) ==> Orphans(rows, objects) <= old(Orphans(rows, objects))
      ensures !Misreports(schedule) && r !in {CleanupFailed, Crashed} ==>
        Orphans(rows, objects) <= old(Orphans(rows, objects))
      ensures Explained(r, schedule)
      ensures r == Stored ==>
        forall x :: x in rows && SameArtifact(x.request, request) ==> x.request.truth == request.truth
      ensures |old(rows)| < MAX_CACHE_ROWS ==>
        forall x :: x in old(rows) && (!SameArtifact(x.request, request) || x.request.truth == request.truth) ==>
          x in rows && SameObject(old(objects), objects, Artifact(x.key))
      ensures r == AlreadyStored <==> exists row :: row in old(rows) && BoundTo(row, request)
      ensures r == BindingMismatch <==>
        exists row :: row in old(rows) && row.key == request.Key() && row.request != request
      ensures r in {AlreadyStored, BindingMismatch, Misconfigured} ==> rows == old(rows) && objects == old(objects)
      ensures r !in {AlreadyStored, BindingMismatch} ==> forall x :: x in old(rows) ==> x.key != request.Key()
      ensures backend.None? ==> r in {AlreadyStored, BindingMismatch, Misconfigured}
      ensures backend.Some? ==> r != Misconfigured
      ensures backend.Some? ==>
        var row := NewRow(request, contentType, payload, backend.value, now);
        var replaced := Replaced(old(rows), request, row);
        && (rows == old(rows) || rows == replaced || rows == Evicted(replaced))
        && (r == Stored ==> rows == Evicted(replaced) && |rows| <= MAX_CACHE_ROWS)
        && (r == Stored && row in rows && row.External() ==> HasBody(objects, request, payload))
      ensures schedule == [] && backend.Some? ==>
        r in {AlreadyStored, BindingMismatch, Stored} || Conflicts(old(objects), request, payload)
      ensures backend == Some(SupabaseStorage) && Strands(old(rows), old(objects), request, schedule) ==>
        && r == PersistenceFailed && Artifact(request.Key()) !in objects
        && rows == Replaced(old(rows), request, NewRow(request, contentType, payload, SupabaseStorage, now))
    {
      hide Orphans, OnlyDrops, Replaced, Evicted, NoCrash, Misreports, FailsTwice, SameObject;
      faults := schedule;
      OthersUntouched(rows, objects);
      FindFirst(rows, request.Key());
      var found := Find(rows, request.Key());
      if found.Some? {
        forall x | x in rows && x.key == request.Key() ensures x == found.value {
          FindUnique(rows, x);
        }
        return if BoundTo(found.value, request) then AlreadyStored else BindingMismatch;
      }
      if backend.None? { return Misconfigured; }
      var row := NewRow(request, contentType, payload, backend.value, now);
      r := Insert(request, row, payload);
      OthersStay(old(rows), old(objects), objects, request, row);
    }

    /** Any run of stores, under any faults: every new object without a row is the object of a
        store to blame for it. */
    method Run(stores: seq<StoreCall>) returns (results: seq<StoreResult>)
      requires Valid()
      modifies this
      ensures Valid() && |results| == |stores|
      ensures forall i :: 0 <= i < |stores| ==> Explained(results[i], stores[i].schedule)
      ensures Accounted(Orphans(rows, objects) - old(Orphans(rows, objects)), stores, results)
    {
      results := [];
      for n := 0 to |stores|
        invariant Valid() && |results| == n
        invariant forall i :: 0 <= i < n ==> Explained(results[i], stores[i].schedule)
        invariant Accounted(Orphans(rows, objects) - old(Orphans(rows, objects)), stores[..n], results)
      {
        ghost var before := Orphans(rows, objects);
        var c := stores[n];
        var r := Store(c.request, c.contentType, c.payload, c.backend, c.now, c.schedule);
        results := results + [r];
        AccountedSnoc(before, old(Orphans(rows, objects)), Orphans(rows, objects), stores, n, results);
      }
      assert stores[..|stores|] == stores;
    }

    /** When a store that returned normally makes the artifact available: a fresh row exactly if
        it was not evicted at once; a row that was already there exactly if its body is still
        within reach. */
    method StoreThenGet(request: Request, contentType: string, payload: Bytes, backend: Option<Backend>, now: int,
                        schedule: seq<Call>, call: Call)
        returns (r: StoreResult, g: GetResult)
      requires Valid()
      modifies this
      ensures Valid()
      ensures r == Stored && backend.Some? ==>
        var row := NewRow(request, contentType, payload, backend.value, now);
        var evicted := row in Victims(Replaced(old(rows), request, row));
        && (evicted ==> g == Missing)
        && (!evicted && (row.backend == PostgresPayload || call.Done?) ==> g == Body(contentType, payload))
        && (!evicted && !(row.backend == PostgresPayload || call.Done?) ==> g == StorageError)
      ensures r == Stored && call.Done? && (forall x :: x in old(rows) ==> x.createdAt < now) ==>
        g == Body(contentType, payload)
      ensures r == AlreadyStored ==> forall row :: row in old(rows) && BoundTo(row, request) ==>
        g == if Reachable(row, old(objects), call) then Body(row.contentType, row.sha.value.body) else StorageError
    {
      hide Sound, Orphans, Blames, Explained, Victims, Replaced, Evicted, Strands, RestOf;
      r := Store(request, contentType, payload, backend, now, schedule);
      g := Get(request, call);
      if r == Stored && backend.Some? {
        var row := NewRow(request, contentType, payload, backend.value, now);
        SoundDistinct(old(rows), old(objects));
        StoredRow(old(rows), request, row);
        if forall x :: x in old(rows) ==> x.createdAt < now {
          NewestSurvives(Replaced(old(rows), request, row), row);
        }
      }
    }
  }

  /** Two requests for the same document of the same opportunity, in the same template. */
  predicate SameArtifact(a: Request, b: Request) {
    a.opportunity == b.opportunity && a.kind == b.kind && a.template == b.template
  }

  /** The object is untouched, if it was there. */
  ghost predicate SameObject(before: map<ObjectKey, Bytes>, after: map<ObjectKey, Bytes>, key: ObjectKey) {
    key in before ==> key in after && after[key] == before[key]
  }

  lemma OthersUntouched(rows: seq<Row>, objects: map<ObjectKey, Bytes>)
    ensures forall x :: x in rows ==> SameObject(objects, objects, Artifact(x.key))
  {
  }

  /** Objects go only with stale rows, with evicted rows, or under the new key. */
  ghost predicate OnlyDrops(before: map<ObjectKey, Bytes>, after: map<ObjectKey, Bytes>, rows: seq<Row>,
                            request: Request, row: Row)
  {
    && NeverOverwritten(before, after)
    && forall k :: k in before && k !in after ==>
         || k == Artifact(request.Key()) || k in Referenced(Stale(rows, request))
         || k in Referenced(Victims(Replaced(rows, request, row)))
  }

  lemma Drops(before: map<ObjectKey, Bytes>, prepared: map<ObjectKey, Bytes>, committed: map<ObjectKey, Bytes>,
              after: map<ObjectKey, Bytes>, rows: seq<Row>, request: Request, row: Row)
    requires NeverOverwritten(before, prepared)
    requires forall k :: k in before && k !in prepared ==> k in Referenced(Stale(rows, request))
    requires committed == prepared || committed == prepared - {Artifact(request.Key())}
    requires NeverOverwritten(committed, after) && after.Keys <= committed.Keys
    requires forall k :: k in committed && k !in after ==> k in Referenced(Victims(Replaced(rows, request, row)))
    ensures OnlyDrops(before, after, rows, request, row)
  {
    hide Referenced, Stale, Victims, Replaced;
  }

  /** A store replaces the artifact's rows for other truth packs and, while there is room, touches
      no other row and no other row's object. */
  lemma OthersStay(rows: seq<Row>, before: map<ObjectKey, Bytes>, after: map<ObjectKey, Bytes>, request: Request,
                   row: Row)
    requires Sound(rows, before) && OnlyDrops(before, after, rows, request, row) && row.key == request.Key()
    requires row.request == request && forall x :: x in rows ==> x.key != request.Key()
    ensures forall x :: x in Replaced(rows, request, row) && SameArtifact(x.request, request) ==>
      x.request.truth == request.truth
    ensures forall x :: x in Evicted(Replaced(rows, request, row)) ==> x in Replaced(rows, request, row)
    ensures |rows| < MAX_CACHE_ROWS ==> Evicted(Replaced(rows, request, row)) == Replaced(rows, request, row)
    ensures forall x :: x in rows && (!SameArtifact(x.request, request) || x.request.truth == request.truth) ==>
      && x in Replaced(rows, request, row)
      && (|rows| < MAX_CACHE_ROWS ==> SameObject(before, after, Artifact(x.key)))
  {
    var replaced := Replaced(rows, request, row);
    if |rows| < MAX_CACHE_ROWS {
      assert Victims(replaced) == [];
      WithoutNone(replaced);
    }
    forall x | x in rows && (!SameArtifact(x.request, request) || x.request.truth == request.truth)
      ensures x in replaced && Artifact(x.key) !in Referenced(Stale(rows, request))
    {
      forall s | s in Stale(rows, request) && s.External() ensures s.key != x.key {
        if s.key == x.key {
          FindUnique(rows, s);
          FindUnique(rows, x);
        }
      }
    }
  }

  /** An upload that succeeds, a commit that fails after taking effect, a compensation that
      succeeds. */
  ghost predicate Strands(rows: seq<Row>, objects: map<ObjectKey, Bytes>, request: Request, calls: seq<Call>) {
    && Artifact(request.Key()) !in objects && (forall x :: x in rows ==> x.key != request.Key())
    && Stale(rows, request) == []
    && |calls| >= 2 && calls[0].Done? && calls[1] == Failed(true) && (|calls| == 2 || calls[2].Done?)
  }

  /** The witness: such a store leaves a row without its body, and from then on every store of
      the artifact returns at once while no retrieval succeeds. */
  method Stranded(request: Request, contentType: string, payload: Bytes, now: int, tries: nat)
      returns (first: StoreResult, again: seq<StoreResult>, gets: seq<GetResult>)
    ensures first == PersistenceFailed && |again| == |gets| == tries
    ensures forall i :: 0 <= i < tries ==> again[i] == AlreadyStored && gets[i] == StorageError
  {
    var cache := new Cache();
    first := cache.Store(request, contentType, payload, Some(SupabaseStorage), now, [Done, Failed(true), Done]);
    var row := NewRow(request, contentType, payload, SupabaseStorage, now);
    assert cache.rows == [row];
    again, gets := [], [];
    for i := 0 to tries
      invariant fresh(cache) && cache.Valid() && |again| == |gets| == i
      invariant row in cache.rows && Artifact(request.Key()) !in cache.objects
      invariant forall j :: 0 <= j < i ==> again[j] == AlreadyStored && gets[j] == StorageError
    {
      var r := cache.Store(request, contentType, payload, Some(SupabaseStorage), now, []);
      var g := cache.Get(request, Done);
      again, gets := again + [r], gets + [g];
    }
  }

  /** The result of a store that may leave an object without a row. */
  ghost predicate Blames(r: StoreResult, calls: seq<Call>) {
    || (r == Crashed && !NoCrash(calls))
    || (r == CleanupFailed && FailsTwice(calls))
    || (r == UploadFailed && Misreports(calls))
  }

  /** A crash is reported only for a schedule with one, a failed cleanup only for two failures. */
  ghost predicate Explained(r: StoreResult, calls: seq<Call>) {
    (r == Crashed ==> !NoCrash(calls)) && (r == CleanupFailed ==> FailsTwice(calls))
  }

  lemma BlamesRest(rest: seq<Call>, calls: seq<Call>)
    requires RestOf(rest, calls)
    ensures forall r :: Blames(r, rest) ==> Blames(r, calls)
    ensures forall r :: Explained(r, rest) ==> Explained(r, calls)
  {
    RestFacts(rest, calls);
  }

  /** Each of these objects belongs to a store that is to blame for it. */
  ghost predicate Accounted(orphans: set<ObjectKey>, stores: seq<StoreCall>, results: seq<StoreResult>)
    requires |results| == |stores|
  {
    forall k :: k in orphans ==> exists i :: 0 <= i < |stores| && BlamedFor(k, stores[i], results[i])
  }

  ghost predicate BlamedFor(k: ObjectKey, store: StoreCall, result: StoreResult) {
    k == Artifact(store.request.Key()) && Blames(result, store.schedule)
  }

  lemma AccountedSnoc(before: set<ObjectKey>, start: set<ObjectKey>, after: set<ObjectKey>,
                      stores: seq<StoreCall>, n: nat, results: seq<StoreResult>)
    requires n < |stores| && |results| == n + 1
    requires Accounted(before - start, stores[..n], results[..n])
    requires after <= before + {Artifact(stores[n].request.Key())}
    requires !Blames(results[n], stores[n].schedule) ==> after <= before
    ensures Accounted(after - start, stores[..n + 1], results)
  {
    forall k | k in after - start
      ensures exists i :: 0 <= i < n + 1 && BlamedFor(k, stores[..n + 1][i], results[i])
    {
      if k in before {
        assert k in before - start;
        var i :| 0 <= i < |stores[..n]| && BlamedFor(k, stores[..n][i], results[..n][i]);
        assert BlamedFor(k, stores[..n + 1][i], results[i]);
      } else {
        assert BlamedFor(k, stores[..n + 1][n], results[n]);
      }
    }
  }

  /** Where the new row stands after the commit and the eviction. */
  lemma StoredRow(rows: seq<Row>, request: Request, row: Row)
    requires row.key == request.Key() && DistinctKeys(rows) && forall x :: x in rows ==> x.key != request.Key()
    ensures row in Replaced(rows, request, row) && DistinctKeys(Replaced(rows, request, row))
    ensures row in Evicted(Replaced(rows, request, row)) <==> row !in Victims(Replaced(rows, request, row))
    ensures forall x :: x in Replaced(rows, request, row) ==> x in rows || x == row
    ensures forall x :: x in Evicted(Replaced(rows, request, row)) ==> x in Replaced(rows, request, row)
  {
    FilterDistinct(rows, (r: Row) => r !in Stale(rows, request));
  }

  predicate HasBody(objects: map<ObjectKey, Bytes>, request: Request, body: Bytes) {
    Artifact(request.Key()) in objects && objects[Artifact(request.Key())] == body
  }

  /** Some other body already sits under this request's object key. */
  predicate Conflicts(objects: map<ObjectKey, Bytes>, request: Request, body: Bytes) {
    Artifact(request.Key()) in objects && objects[Artifact(request.Key())] != body
  }

  /** No other row's object is this row's. */
  lemma VictimKeys(rows: seq<Row>, row: Row)
    requires DistinctKeys(rows) && row in rows && row !in Victims(rows)
    requires forall r :: r in rows ==> WellFormed(r)
    ensures Artifact(row.key) !in Referenced(Victims(rows))
  {
    forall r | r in Victims(rows) && r.External() ensures r.key != row.key {
      if r.key == row.key {
        FindUnique(rows, r);
        FindUnique(rows, row);
      }
    }
  }

  lemma {:induction false} WithoutNone(rows: seq<Row>)
    ensures Without(rows, []) == rows
  {
    if rows != [] {
      WithoutNone(rows[1..]);
    }
  }
}
