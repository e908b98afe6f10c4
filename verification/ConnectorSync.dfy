/**
 The paging provider of packages/connectors/src/providers.ts and the import loop of
 apps/web/src/server/services/connectors.ts.  What fetching a record and its content answers is an
 input: one reply for every position of the provider's list, different in every run.  Whether a
 fetched record is in scope is decided by ScopeRules.
 */
module ConnectorSync {
  import opened Results
  import opened Texts
  import S = ScopeRules

  /** A record as the provider lists it; the version is the checksum hint. */
  datatype Ref = Ref(externalId: string, version: string)

  datatype ScopeId = ScopeId(account: nat, scope: nat)

  /** What identifies an external record in the database. */
  datatype Key = Key(scope: ScopeId, externalId: string, version: string)

  function KeyOf(scope: ScopeId, ref: Ref): Key {
    Key(scope, ref.externalId, ref.version)
  }

  // ---------------------------------------------------------------------------------------
  // The provider
  // ---------------------------------------------------------------------------------------

  const PAGE_SIZE: nat := 2

  datatype Page = Page(records: seq<Ref>, nextCursor: nat, hasMore: bool)

  function Clamp(i: nat, n: nat): nat {
    if i < n then i else n
  }

  class FakeProvider {
    const fixtures: seq<Ref>
    var cursor: nat

    constructor (fixtures: seq<Ref>)
      ensures this.fixtures == fixtures && cursor == 0
    {
      this.fixtures := fixtures;
      cursor := 0;
    }

    /** The next two records from the checkpoint on, or from the provider's own cursor. */
    method ListChangedRecords(checkpoint: Option<nat>) returns (page: Page)
      modifies this
      ensures var start := if checkpoint.Some? then checkpoint.value else old(cursor);
        && page.records == fixtures[Clamp(start, |fixtures|)..Clamp(start + PAGE_SIZE, |fixtures|)]
        && cursor == page.nextCursor == start + |page.records|
      ensures var start := if checkpoint.Some? then checkpoint.value else old(cursor);
        && page.records == (if start + 2 <= |fixtures| then fixtures[start..start + 2]
                            else if start < |fixtures| then fixtures[start..] else [])
      ensures page.hasMore <==> page.nextCursor < |fixtures|
    {
      if checkpoint.Some? {
        cursor := checkpoint.value;
      }
      var slice := fixtures[Clamp(cursor, |fixtures|)..Clamp(cursor + PAGE_SIZE, |fixtures|)];
      cursor := cursor + |slice|;
      page := Page(slice, cursor, cursor < |fixtures|);
    }
  }

  // ---------------------------------------------------------------------------------------
  // One record
  // ---------------------------------------------------------------------------------------

  datatype Content = NoContent | ImportThrows | Importable

  /** What fetching a record answers: its metadata, and how far fetching and importing the content gets. */
  datatype Reply = MetadataThrows | NoMetadata | Metadata(record: S.Record, content: Content)

  datatype Tally = Tally(discovered: nat, imported: nat, skipped: nat, duplicates: nat, failed: nat)

  const NOTHING: Tally := Tally(0, 0, 0, 0, 0)

  /** Imported documents in order, each under the key it was imported for, and the row of each key. */
  datatype Store = Store(documents: seq<Key>, rows: map<Key, nat>)

  /** A run in progress. */
  datatype Work = Work(store: Store, tally: Tally, visited: seq<Ref>, aborted: bool)

  function Import(s: Store, key: Key): Store {
    Store(s.documents + [key], s.rows[key := |s.documents|])
  }

  /** Whether a record is in scope. */
  type Filter = S.Record -> bool

  /** The filter of the scope rules. */
  function FilterOf(given: S.Given, rules: S.Rules): Filter {
    (r: S.Record) => S.Decide(given, rules, r).Pass?
  }

  function Visit(w: Work, scope: ScopeId, inScope: Filter, ref: Ref, reply: Reply): Work {
    var key := KeyOf(scope, ref);
    var t := w.tally.(discovered := w.tally.discovered + 1);
    var seen := w.visited + [ref];
    match reply
    case MetadataThrows => Work(w.store, t, seen, true)
    case NoMetadata => Work(w.store, t.(skipped := t.skipped + 1), seen, false)
    case Metadata(record, content) =>
      if !inScope(record) then Work(w.store, t.(skipped := t.skipped + 1), seen, false)
      else if key in w.store.rows then Work(w.store, t.(duplicates := t.duplicates + 1), seen, false)
      else if content != Importable then Work(w.store, t.(failed := t.failed + 1), seen, false)
      else Work(Import(w.store, key), t.(imported := t.imported + 1), seen, false)
  }

  type Replies = nat -> Reply

  /** The visit of the record at a position. */
  type Visitor = (Work, nat) -> Work

  function VisitorOf(scope: ScopeId, inScope: Filter, refs: seq<Ref>, replies: Replies): Visitor {
    (w: Work, i: nat) => if i < |refs| then Visit(w, scope, inScope, refs[i], replies(i)) else w
  }

  /** The records at positions `from` to `end`, one after the other, until one aborts the run. */
  function VisitAll(visit: Visitor, w: Work, from: nat, end: nat): Work
    decreases end
  {
    if end <= from then w
    else
      var before := VisitAll(visit, w, from, end - 1);
      if before.aborted then before else visit(before, end - 1)
  }

  // ---------------------------------------------------------------------------------------
  // A run
  // ---------------------------------------------------------------------------------------

  function Begin(s: Store): Work {
    Work(s, NOTHING, [], false)
  }

  datatype RunStatus = QUEUED | RUNNING | SUCCEEDED | PARTIALLY_SUCCEEDED | FAILED

  function StatusOf(t: Tally): RunStatus {
    if t.failed > 0 && t.imported > 0 then PARTIALLY_SUCCEEDED
    else if t.failed > 0 then FAILED
    else SUCCEEDED
  }

  /** The row of a run. */
  datatype SyncRun = SyncRun(scope: ScopeId, status: RunStatus, tally: Tally)

  /**
   The field that holds the patterns of a new scope, and from the first completed run on the
   position reached: the same field for both.
   */
  datatype Checkpoint = Patterns(references: seq<Text>, mimeTypes: seq<Text>) | At(cursor: nat)

  datatype ScopeRow = ScopeRow(active: bool, importOnly: bool, includes: seq<Text>, excludes: seq<Text>,
    dateFrom: Option<int>, dateTo: Option<int>, approvedTypes: seq<Text>, checkpoint: Checkpoint)

  /** The rules read from a scope: without patterns in the field, the approved types stand in for them. */
  function RulesOf(row: ScopeRow): S.Rules {
    match row.checkpoint
    case Patterns(references, mimeTypes) =>
      S.Rules(row.includes, row.excludes, row.dateFrom, row.dateTo, references, mimeTypes)
    case At(_) => S.Rules(row.includes, row.excludes, row.dateFrom, row.dateTo, row.approvedTypes, [])
  }

  function StartOf(row: ScopeRow): nat {
    if row.checkpoint.At? then row.checkpoint.cursor else 0
  }

  datatype SyncResult =
    | Completed(status: RunStatus, tally: Tally, checkpoint: nat, visited: seq<Ref>)
    | Aborted(partial: Tally)

  function End(w: Work, checkpoint: nat): SyncResult {
    if w.aborted then Aborted(w.tally) else Completed(StatusOf(w.tally), w.tally, checkpoint, w.visited)
  }

  datatype Database = Database(store: Store, scopes: map<ScopeId, ScopeRow>, runs: seq<SyncRun>)

  /** The scope exists, is active and imports only. */
  predicate Runnable(db: Database, scope: ScopeId) {
    scope in db.scopes && db.scopes[scope].active && db.scopes[scope].importOnly
  }

  /** What one run is given: the provider's list and the answers. */
  datatype Inputs = Inputs(given: S.Given, refs: seq<Ref>, replies: Replies)

  function RunVisitor(row: ScopeRow, scope: ScopeId, inputs: Inputs): Visitor {
    VisitorOf(scope, FilterOf(inputs.given, RulesOf(row)), inputs.refs, inputs.replies)
  }

  function RunWork(db: Database, scope: ScopeId, inputs: Inputs): Work
    requires scope in db.scopes
  {
    VisitAll(RunVisitor(db.scopes[scope], scope, inputs), Begin(db.store), StartOf(db.scopes[scope]), |inputs.refs|)
  }

  function EndPosition(db: Database, scope: ScopeId, inputs: Inputs): nat
    requires scope in db.scopes
  {
    var start := StartOf(db.scopes[scope]);
    if start < |inputs.refs| then |inputs.refs| else start
  }

  function Moved(row: ScopeRow, cursor: nat): ScopeRow {
    row.(checkpoint := At(cursor))
  }

  /** The database after a run: as before if the run was aborted, since its transaction is rolled back. */
  function AfterRun(db: Database, scope: ScopeId, inputs: Inputs): Database {
    if !Runnable(db, scope) || RunWork(db, scope, inputs).aborted then db
    else
      var w := RunWork(db, scope, inputs);
      Database(w.store, db.scopes[scope := Moved(db.scopes[scope], EndPosition(db, scope, inputs))],
               db.runs + [SyncRun(scope, StatusOf(w.tally), w.tally)])
  }

  /** One record: metadata, scope, earlier import, content, import. */
  method VisitRecord(work: Work, scope: ScopeId, given: S.Given, rules: S.Rules, ref: Ref, reply: Reply)
    returns (after: Work)
    ensures after == Visit(work, scope, FilterOf(given, rules), ref, reply)
  {
    var t := work.tally.(discovered := work.tally.discovered + 1);
    var seen := work.visited + [ref];
    if reply.MetadataThrows? {
      return Work(work.store, t, seen, true);
    }
    if reply.NoMetadata? {
      return Work(work.store, t.(skipped := t.skipped + 1), seen, false);
    }
    var matched := S.RecordMatchesScope(given, rules, reply.record);
    if matched.Fail? {
      return Work(work.store, t.(skipped := t.skipped + 1), seen, false);
    }
    var key := KeyOf(scope, ref);
    if key in work.store.rows {
      return Work(work.store, t.(duplicates := t.duplicates + 1), seen, false);
    }
    if reply.content != Importable {
      return Work(work.store, t.(failed := t.failed + 1), seen, false);
    }
    return Work(Import(work.store, key), t.(imported := t.imported + 1), seen, false);
  }

  /** The loop over the records of a page, which start at position `base` of the list. */
  method ImportPage(work0: Work, scope: ScopeId, given: S.Given, rules: S.Rules, records: seq<Ref>, replies: Replies,
                    position: nat, ghost base: nat, ghost refs: seq<Ref>, ghost visit: Visitor, ghost begin: Work,
                    ghost start: nat)
    returns (work: Work)
    requires !work0.aborted && visit == VisitorOf(scope, FilterOf(given, rules), refs, replies)
    requires base + |records| <= |refs| && records == refs[base..base + |records|]
    requires records != [] ==> start <= base == position
    requires work0 == VisitAll(visit, begin, start, base)
    ensures work == VisitAll(visit, begin, start, base + |records|)
  {
    work := work0;
    for i := 0 to |records|
      invariant !work.aborted && work == VisitAll(visit, begin, start, base + i)
    {
      var before, ref, reply := work, records[i], replies(position + i);
      assert ref == refs[base + i] && position + i == base + i;
      work := VisitRecord(before, scope, given, rules, ref, reply);
      VisitStepTo(scope, FilterOf(given, rules), refs, replies, visit, begin, start, base + i, before, work,
                  base + |records|);
      if work.aborted {
        return;
      }
    }
  }

  /** One page: asked for, and its records visited. */
  method VisitPage(provider: FakeProvider, work0: Work, scope: ScopeId, given: S.Given, rules: S.Rules,
                   replies: Replies, checkpoint: Option<nat>, position: nat, ghost visit: Visitor, ghost begin: Work,
                   ghost start: nat)
    returns (work: Work, next: Option<nat>, hasMore: bool)
    requires position == if checkpoint.Some? then checkpoint.value else provider.cursor
    requires !work0.aborted && visit == VisitorOf(scope, FilterOf(given, rules), provider.fixtures, replies)
    requires start <= position && work0 == VisitAll(visit, begin, start, Clamp(position, |provider.fixtures|))
    modifies provider
    ensures work == VisitAll(visit, begin, start, Clamp(position + PAGE_SIZE, |provider.fixtures|))
    ensures next.Some? && next.value
      == if position < |provider.fixtures| then Clamp(position + PAGE_SIZE, |provider.fixtures|) else position
    ensures hasMore <==> next.value < |provider.fixtures|
  {
    var page := provider.ListChangedRecords(checkpoint);
    ghost var base, refs := Clamp(position, |provider.fixtures|), provider.fixtures;
    assert page.records == refs[base..base + |page.records|];
    work := ImportPage(work0, scope, given, rules, page.records, replies, position, base, refs, visit, begin, start);
    return work, Some(page.nextCursor), page.hasMore;
  }

  class SyncService {
    var store: Store
    var scopes: map<ScopeId, ScopeRow>
    var runs: seq<SyncRun>

    constructor (scopes: map<ScopeId, ScopeRow>)
      ensures Db() == Database(Store([], map[]), scopes, [])
    {
      store := Store([], map[]);
      this.scopes := scopes;
      runs := [];
    }

    ghost function Db(): Database
      reads this
    {
      Database(store, scopes, runs)
    }

    /** The loop over pages, until no more is to come or the run aborts. */
    method VisitPages(provider: FakeProvider, scope: ScopeId, given: S.Given, rules: S.Rules, replies: Replies,
                      checkpoint0: Option<nat>, ghost visit: Visitor)
      returns (work: Work, position: nat)
      requires provider.cursor == 0 && visit == VisitorOf(scope, FilterOf(given, rules), provider.fixtures, replies)
      modifies this`store, provider
      ensures var start := if checkpoint0.Some? then checkpoint0.value else 0;
        && work == VisitAll(visit, old(Begin(store)), start, |provider.fixtures|)
        && (!work.aborted ==> position == if start < |provider.fixtures| then |provider.fixtures| else start)
      ensures store == work.store
    {
      ghost var begin, refs := Begin(store), provider.fixtures;
      var checkpoint := checkpoint0;
      var start: nat := if checkpoint.Some? then checkpoint.value else 0;
      var hasMore := true;
      position, work := start, Begin(store);
      while hasMore
        invariant position == if checkpoint.Some? then checkpoint.value else provider.cursor
        invariant start <= position && (position <= |refs| || position == start)
        invariant !work.aborted && work == VisitAll(visit, begin, start, Clamp(position, |refs|))
        invariant store == work.store
        invariant !hasMore ==> position >= |refs|
        decreases hasMore, |refs| - position
      {
        ghost var end := Clamp(position + PAGE_SIZE, |refs|);
        work, checkpoint, hasMore := VisitPage(provider, work, scope, given, rules, replies, checkpoint, position,
                                               visit, begin, start);
        store := work.store;
        if work.aborted {
          VisitStops(visit, begin, start, end, |refs|);
          return;
        }
        position := checkpoint.value;
      }
    }

    /**
     The run inside its transaction.  The row of the run is set to running, and then to its final
     status, or to FAILED before the error is thrown again.  The provider is new in every run.
     */
    method ExecuteSyncRun(provider: FakeProvider, scope: ScopeId, given: S.Given, replies: Replies, run: nat)
      returns (result: SyncResult)
      requires provider.cursor == 0 && scope in scopes && run < |runs|
      modifies this, provider
      ensures var inputs := Inputs(given, provider.fixtures, replies);
        && store == old(RunWork(Db(), scope, inputs)).store
        && result == old(End(RunWork(Db(), scope, inputs), EndPosition(Db(), scope, inputs)))
        && (result.Completed? ==>
              scopes == old(scopes)[scope := Moved(old(scopes)[scope], result.checkpoint)]
              && runs == old(runs)[run := SyncRun(old(runs)[run].scope, result.status, result.tally)])
        && (result.Aborted? ==>
              scopes == old(scopes) && runs == old(runs)[run := SyncRun(old(runs)[run].scope, FAILED, result.partial)])
      ensures ResultTells(old(Db()), scope, Inputs(given, provider.fixtures, replies), result)
      ensures |store.documents|
        == old(|store.documents|) + if result.Completed? then result.tally.imported else result.partial.imported
    {
      ghost var inputs := Inputs(given, provider.fixtures, replies);
      ResultReports(Db(), scope, inputs, RunWork(Db(), scope, inputs));
      result := ExecuteInTransaction(provider, scope, given, replies, run);
    }

    method ExecuteInTransaction(provider: FakeProvider, scope: ScopeId, given: S.Given, replies: Replies, run: nat)
      returns (result: SyncResult)
      requires provider.cursor == 0 && scope in scopes && run < |runs|
      modifies this, provider
      ensures var inputs := Inputs(given, provider.fixtures, replies);
        && store == old(RunWork(Db(), scope, inputs)).store
        && result == old(End(RunWork(Db(), scope, inputs), EndPosition(Db(), scope, inputs)))
        && (result.Completed? ==>
              scopes == old(scopes)[scope := Moved(old(scopes)[scope], result.checkpoint)]
              && runs == old(runs)[run := SyncRun(old(runs)[run].scope, result.status, result.tally)])
        && (result.Aborted? ==>
              scopes == old(scopes) && runs == old(runs)[run := SyncRun(old(runs)[run].scope, FAILED, result.partial)])
    {
      runs := runs[run := runs[run].(status := RUNNING)];
      var row, rules := scopes[scope], RulesOf(scopes[scope]);
      var checkpoint := if row.checkpoint.At? then Some(row.checkpoint.cursor) else None;
      ghost var visit := RunVisitor(row, scope, Inputs(given, provider.fixtures, replies));
      var work, position := VisitPages(provider, scope, given, rules, replies, checkpoint, visit);
      if work.aborted {
        runs := runs[run := SyncRun(runs[run].scope, FAILED, work.tally)];
        return Aborted(work.tally);
      }
      scopes := scopes[scope := Moved(scopes[scope], position)];
      runs := runs[run := SyncRun(runs[run].scope, StatusOf(work.tally), work.tally)];
      return Completed(StatusOf(work.tally), work.tally, position, work.visited);
    }

    /**
     The run with its transaction: queued, executed, and rolled back if the error comes through.  The
     database then holds a row of this run exactly if the scope could be run and the run did not abort,
     although the transaction had written FAILED into it (`inside`).
     */
    method RunSyncForScope(fixtures: seq<Ref>, scope: ScopeId, given: S.Given, replies: Replies)
      returns (result: Option<SyncResult>, ghost inside: Option<SyncRun>)
      modifies this
      ensures result.Some? <==> scope in old(scopes) && old(scopes)[scope].active && old(scopes)[scope].importOnly
      ensures result.Some? ==>
        && ResultTells(old(Db()), scope, Inputs(given, fixtures, replies), result.value)
        && |store.documents|
           == old(|store.documents|) + if result.value.Completed? then result.value.tally.imported else 0
      ensures Db() == old(AfterRun(Db(), scope, Inputs(given, fixtures, replies)))
      ensures result.Some? ==>
        var inputs := Inputs(given, fixtures, replies);
        result.value == old(End(RunWork(Db(), scope, inputs), EndPosition(Db(), scope, inputs)))
      ensures result.Some? ==> inside.Some?
      ensures runs == old(runs) + if result.Some? && result.value.Completed? then [inside.value] else []
      ensures result.Some? && result.value.Completed? ==>
        inside.value == SyncRun(scope, result.value.status, result.value.tally)
      ensures result.Some? && result.value.Aborted? ==>
        inside.value == SyncRun(scope, FAILED, result.value.partial) && Db() == old(Db())
    {
      ghost var before, inputs := Db(), Inputs(given, fixtures, replies);
      if scope in scopes {
        ResultReports(before, scope, inputs, RunWork(before, scope, inputs));
      }
      result, inside := RunInTransaction(fixtures, scope, given, replies);
    }

    method RunInTransaction(fixtures: seq<Ref>, scope: ScopeId, given: S.Given, replies: Replies)
      returns (result: Option<SyncResult>, ghost inside: Option<SyncRun>)
      modifies this
      ensures result.Some? <==> old(Runnable(Db(), scope))
      ensures Db() == old(AfterRun(Db(), scope, Inputs(given, fixtures, replies)))
      ensures result.Some? ==>
        var inputs := Inputs(given, fixtures, replies);
        result.value == old(End(RunWork(Db(), scope, inputs), EndPosition(Db(), scope, inputs)))
      ensures result.Some? ==> inside.Some?
      ensures runs == old(runs) + if result.Some? && result.value.Completed? then [inside.value] else []
      ensures result.Some? && result.value.Completed? ==>
        inside.value == SyncRun(scope, result.value.status, result.value.tally)
      ensures result.Some? && result.value.Aborted? ==>
        inside.value == SyncRun(scope, FAILED, result.value.partial) && Db() == old(Db())
    {
      inside := None;
      if scope !in scopes || !scopes[scope].active || !scopes[scope].importOnly {
        return None, None;
      }
      var store0, scopes0, runs0 := store, scopes, runs;
      var run := |runs|;
      runs := runs + [SyncRun(scope, QUEUED, NOTHING)];
      var provider := new FakeProvider(fixtures);
      var outcome := ExecuteInTransaction(provider, scope, given, replies, run);
      inside := Some(runs[run]);
      if outcome.Aborted? {
        store, scopes, runs := store0, scopes0, runs0;
      }
      return Some(outcome), inside;
    }
  }

  lemma VisitNext(visit: Visitor, w: Work, from: nat, end: nat, before: Work)
    requires from <= end && before == VisitAll(visit, w, from, end) && !before.aborted
    ensures VisitAll(visit, w, from, end + 1) == visit(before, end)
  {
  }

  lemma VisitorAt(scope: ScopeId, inScope: Filter, refs: seq<Ref>, replies: Replies, w: Work, i: nat, ref: Ref)
    requires i < |refs| && refs[i] == ref
    ensures VisitorOf(scope, inScope, refs, replies)(w, i) == Visit(w, scope, inScope, ref, replies(i))
  {
  }

  /** One record more. */
  lemma VisitStep(scope: ScopeId, inScope: Filter, refs: seq<Ref>, replies: Replies, visit: Visitor, w: Work, from: nat,
                  at: nat, before: Work, after: Work)
    requires visit == VisitorOf(scope, inScope, refs, replies) && from <= at < |refs|
    requires before == VisitAll(visit, w, from, at) && !before.aborted
    requires after == Visit(before, scope, inScope, refs[at], replies(at))
    ensures after == VisitAll(visit, w, from, at + 1)
  {
    VisitNext(visit, w, from, at, before);
    VisitorAt(scope, inScope, refs, replies, before, at, refs[at]);
  }

  lemma VisitStepTo(scope: ScopeId, inScope: Filter, refs: seq<Ref>, replies: Replies, visit: Visitor, w: Work,
                    from: nat,
                    at: nat, before: Work, after: Work, end: nat)
    requires visit == VisitorOf(scope, inScope, refs, replies) && from <= at < |refs| && at < end
    requires before == VisitAll(visit, w, from, at) && !before.aborted
    requires after == Visit(before, scope, inScope, refs[at], replies(at))
    ensures after == VisitAll(visit, w, from, at + 1) && (after.aborted ==> after == VisitAll(visit, w, from, end))
  {
    VisitStep(scope, inScope, refs, replies, visit, w, from, at, before, after);
    if after.aborted {
      VisitStops(visit, w, from, at + 1, end);
    }
  }

  /** After an abort nothing more is visited. */
  lemma {:induction false} VisitStops(visit: Visitor, w: Work, from: nat, mid: nat, end: nat)
    requires from <= mid <= end && VisitAll(visit, w, from, mid).aborted
    ensures VisitAll(visit, w, from, end) == VisitAll(visit, w, from, mid)
    decreases end - mid
  {
    if mid < end {
      VisitStops(visit, w, from, mid, end - 1);
    }
  }

  // ---------------------------------------------------------------------------------------
  // Counters and order
  // ---------------------------------------------------------------------------------------

  function Sum(t: Tally): nat {
    t.imported + t.skipped + t.duplicates + t.failed
  }

  /**
   The records from position `from` on were visited in order, all up to `end` unless aborted, each under
   one heading.
   */
  ghost predicate Accounted(w: Work, refs: seq<Ref>, from: nat, end: nat) {
    && from + |w.visited| <= end <= |refs|
    && (forall i :: 0 <= i < |w.visited| ==> w.visited[i] == refs[from + i])
    && (!w.aborted ==> from + |w.visited| == end)
    && w.tally.discovered == |w.visited| == Sum(w.tally) + if w.aborted then 1 else 0
  }

  lemma VisitAccounted(w: Work, refs: seq<Ref>, from: nat, end: nat, scope: ScopeId, inScope: Filter, reply: Reply,
                       after: Work)
    requires Accounted(w, refs, from, end) && end < |refs| && !w.aborted
    requires after == Visit(w, scope, inScope, refs[end], reply)
    ensures Accounted(after, refs, from, end + 1)
  {
  }

  lemma {:induction false} VisitsInOrder(s: Store, scope: ScopeId, inScope: Filter, refs: seq<Ref>, replies: Replies,
                                         visit: Visitor, from: nat, end: nat)
    requires from <= end <= |refs| && visit == VisitorOf(scope, inScope, refs, replies)
    ensures Accounted(VisitAll(visit, Begin(s), from, end), refs, from, end)
    decreases end
  {
    if from < end {
      var last: nat := end - 1;
      VisitsInOrder(s, scope, inScope, refs, replies, visit, from, last);
      var before := VisitAll(visit, Begin(s), from, last);
      if before.aborted {
        VisitStops(visit, Begin(s), from, last, end);
      } else {
        var after := Visit(before, scope, inScope, refs[last], replies(last));
        VisitStep(scope, inScope, refs, replies, visit, Begin(s), from, last, before, after);
        VisitAccounted(before, refs, from, last, scope, inScope, replies(last), after);
      }
    }
  }

  /**
   A completed run visits every record from the checkpoint on exactly once, in order, and accounts
   for each under exactly one heading; in an aborted run one record, the last, is under none.
   */
  lemma RunAccountsForAll(db: Database, scope: ScopeId, inputs: Inputs)
    requires scope in db.scopes && StartOf(db.scopes[scope]) <= |inputs.refs|
    ensures Accounted(RunWork(db, scope, inputs), inputs.refs, StartOf(db.scopes[scope]), |inputs.refs|)
  {
    var row := db.scopes[scope];
    VisitsInOrder(db.store, scope, FilterOf(inputs.given, RulesOf(row)), inputs.refs, inputs.replies,
                  RunVisitor(row, scope, inputs), StartOf(row), |inputs.refs|);
  }

  // ---------------------------------------------------------------------------------------
  // What becomes of each record
  // ---------------------------------------------------------------------------------------

  /** Everything that decides about the records of a run. */
  datatype Setting = Setting(scope: ScopeId, inScope: Filter, refs: seq<Ref>, replies: Replies, known: set<Key>,
    start: nat)

  /** The metadata was found and the record is in scope. */
  predicate Wanted(g: Setting, i: nat) {
    g.replies(i).Metadata? && g.inScope(g.replies(i).record)
  }

  predicate CanBeImported(g: Setting, i: nat) {
    Wanted(g, i) && g.replies(i).content == Importable
  }

  /** The scope had a row for the record before the run, or an earlier record of the run gave it one. */
  ghost predicate HasRow(g: Setting, i: nat)
    requires i < |g.refs|
  {
    || KeyOf(g.scope, g.refs[i]) in g.known
    || exists j :: g.start <= j < i && CanBeImported(g, j) && g.refs[j] == g.refs[i]
  }

  ghost predicate IsSkipped(g: Setting, i: nat) {
    i < |g.refs| && !g.replies(i).MetadataThrows? && !Wanted(g, i)
  }

  ghost predicate IsDuplicate(g: Setting, i: nat) {
    i < |g.refs| && Wanted(g, i) && HasRow(g, i)
  }

  ghost predicate IsFailed(g: Setting, i: nat) {
    i < |g.refs| && Wanted(g, i) && !HasRow(g, i) && !CanBeImported(g, i)
  }

  ghost predicate IsImported(g: Setting, i: nat) {
    i < |g.refs| && Wanted(g, i) && !HasRow(g, i) && CanBeImported(g, i)
  }

  /** The positions of a kind, from the start of the run up to `end`. */
  ghost function Skipped(g: Setting, end: nat): set<nat> {
    set i: nat | g.start <= i < end && IsSkipped(g, i)
  }

  ghost function Duplicated(g: Setting, end: nat): set<nat> {
    set i: nat | g.start <= i < end && IsDuplicate(g, i)
  }

  ghost function FailedOnes(g: Setting, end: nat): set<nat> {
    set i: nat | g.start <= i < end && IsFailed(g, i)
  }

  ghost function ImportedOnes(g: Setting, end: nat): set<nat> {
    set i: nat | g.start <= i < end && IsImported(g, i)
  }

  /** The counters are the numbers of records of their kind, and the imported ones are the new documents. */
  ghost predicate Counted(g: Setting, before: Store, w: Work, end: nat) {
    && w.tally.skipped == |Skipped(g, end)| && w.tally.duplicates == |Duplicated(g, end)|
    && w.tally.failed == |FailedOnes(g, end)| && w.tally.imported == |ImportedOnes(g, end)|
    && |w.store.documents| == |before.documents| + w.tally.imported
  }

  /** The rows are those from before and those of the records imported so far. */
  ghost predicate RowsKnown(g: Setting, w: Work, end: nat) {
    && (forall k :: k in g.known ==> k in w.store.rows)
    && (forall j :: g.start <= j < end && j < |g.refs| && CanBeImported(g, j) ==>
          KeyOf(g.scope, g.refs[j]) in w.store.rows)
    && (forall k :: k in w.store.rows ==> k in g.known || GotRow(g, end, k))
  }

  ghost predicate GotRow(g: Setting, end: nat, k: Key) {
    exists j :: g.start <= j < end && j < |g.refs| && CanBeImported(g, j) && KeyOf(g.scope, g.refs[j]) == k
  }

  lemma RowsTell(g: Setting, w: Work, i: nat)
    requires i < |g.refs| && RowsKnown(g, w, i)
    ensures KeyOf(g.scope, g.refs[i]) in w.store.rows <==> HasRow(g, i)
  {
    if exists j :: g.start <= j < i && CanBeImported(g, j) && g.refs[j] == g.refs[i] {
      var j :| g.start <= j < i && CanBeImported(g, j) && g.refs[j] == g.refs[i];
      assert KeyOf(g.scope, g.refs[j]) in w.store.rows;
    }
  }

  lemma VisitKnows(g: Setting, w: Work, i: nat, after: Work)
    requires g.start <= i < |g.refs| && RowsKnown(g, w, i) && !after.aborted
    requires after == Visit(w, g.scope, g.inScope, g.refs[i], g.replies(i))
    ensures RowsKnown(g, after, i + 1)
  {
    if CanBeImported(g, i) {
      assert KeyOf(g.scope, g.refs[i]) in after.store.rows;
    }
    forall k | k in after.store.rows && k !in w.store.rows
      ensures CanBeImported(g, i) && KeyOf(g.scope, g.refs[i]) == k
    {
    }
  }

  lemma GrowsByOne(before: set<nat>, i: nat, added: bool, after: set<nat>)
    requires i !in before && after == before + if added then {i} else {}
    ensures |after| == |before| + if added then 1 else 0
  {
  }

  lemma OneMoreSkipped(g: Setting, i: nat)
    requires g.start <= i
    ensures |Skipped(g, i + 1)| == |Skipped(g, i)| + if IsSkipped(g, i) then 1 else 0
  {
    GrowsByOne(Skipped(g, i), i, IsSkipped(g, i), Skipped(g, i + 1));
  }

  lemma OneMoreDuplicate(g: Setting, i: nat)
    requires g.start <= i
    ensures |Duplicated(g, i + 1)| == |Duplicated(g, i)| + if IsDuplicate(g, i) then 1 else 0
  {
    GrowsByOne(Duplicated(g, i), i, IsDuplicate(g, i), Duplicated(g, i + 1));
  }

  lemma OneMoreFailed(g: Setting, i: nat)
    requires g.start <= i
    ensures |FailedOnes(g, i + 1)| == |FailedOnes(g, i)| + if IsFailed(g, i) then 1 else 0
  {
    GrowsByOne(FailedOnes(g, i), i, IsFailed(g, i), FailedOnes(g, i + 1));
  }

  lemma OneMoreImported(g: Setting, i: nat)
    requires g.start <= i
    ensures |ImportedOnes(g, i + 1)| == |ImportedOnes(g, i)| + if IsImported(g, i) then 1 else 0
  {
    GrowsByOne(ImportedOnes(g, i), i, IsImported(g, i), ImportedOnes(g, i + 1));
  }

  lemma OneMore(g: Setting, i: nat)
    requires g.start <= i
    ensures |Skipped(g, i + 1)| == |Skipped(g, i)| + if IsSkipped(g, i) then 1 else 0
    ensures |Duplicated(g, i + 1)| == |Duplicated(g, i)| + if IsDuplicate(g, i) then 1 else 0
    ensures |FailedOnes(g, i + 1)| == |FailedOnes(g, i)| + if IsFailed(g, i) then 1 else 0
    ensures |ImportedOnes(g, i + 1)| == |ImportedOnes(g, i)| + if IsImported(g, i) then 1 else 0
  {
    OneMoreSkipped(g, i);
    OneMoreDuplicate(g, i);
    OneMoreFailed(g, i);
    OneMoreImported(g, i);
  }

  /** What a visit adds, for a record that has a row already or not. */
  lemma VisitAdds(g: Setting, w: Work, i: nat, after: Work)
    requires i < |g.refs| && !after.aborted && after == Visit(w, g.scope, g.inScope, g.refs[i], g.replies(i))
    requires KeyOf(g.scope, g.refs[i]) in w.store.rows <==> HasRow(g, i)
    ensures after.tally.skipped == w.tally.skipped + if IsSkipped(g, i) then 1 else 0
    ensures after.tally.duplicates == w.tally.duplicates + if IsDuplicate(g, i) then 1 else 0
    ensures after.tally.failed == w.tally.failed + if IsFailed(g, i) then 1 else 0
    ensures after.tally.imported == w.tally.imported + if IsImported(g, i) then 1 else 0
    ensures |after.store.documents| == |w.store.documents| + if IsImported(g, i) then 1 else 0
    ensures after.tally.discovered == w.tally.discovered + 1
  {
  }

  lemma VisitCounts(g: Setting, before: Store, w: Work, i: nat, after: Work)
    requires g.start <= i < |g.refs| && RowsKnown(g, w, i) && Counted(g, before, w, i) && !after.aborted
    requires after == Visit(w, g.scope, g.inScope, g.refs[i], g.replies(i))
    ensures Counted(g, before, after, i + 1) && after.tally.discovered == w.tally.discovered + 1
  {
    RowsTell(g, w, i);
    VisitAdds(g, w, i, after);
    OneMore(g, i);
  }

  /** The visit that aborts a run adds to no counter but that of the records seen. */
  lemma AbortCounts(g: Setting, before: Store, w: Work, i: nat, after: Work)
    requires g.start <= i < |g.refs| && Counted(g, before, w, i) && after.aborted
    requires after == Visit(w, g.scope, g.inScope, g.refs[i], g.replies(i))
    ensures g.replies(i).MetadataThrows? && Counted(g, before, after, i + 1)
    ensures after.tally.discovered == w.tally.discovered + 1
  {
    OneMore(g, i);
  }

  /** The counters of a run that has come as far as `reached`, and has aborted or not. */
  ghost predicate CountedTo(g: Setting, before: Store, w: Work, end: nat, reached: nat) {
    && g.start <= reached <= end && Counted(g, before, w, reached) && w.tally.discovered == reached - g.start
    && (!w.aborted ==> reached == end && RowsKnown(g, w, end))
    && (w.aborted ==> reached > g.start && g.replies(reached - 1).MetadataThrows?)
  }

  lemma NextCounts(g: Setting, before: Store, w: Work, i: nat, after: Work)
    requires g.start <= i < |g.refs| && CountedTo(g, before, w, i, i) && !w.aborted
    requires after == Visit(w, g.scope, g.inScope, g.refs[i], g.replies(i))
    ensures CountedTo(g, before, after, i + 1, i + 1)
  {
    if after.aborted {
      AbortCounts(g, before, w, i, after);
    } else {
      VisitCounts(g, before, w, i, after);
      VisitKnows(g, w, i, after);
    }
  }

  lemma NothingCounted(g: Setting, before: Store)
    requires g.known == before.rows.Keys
    ensures CountedTo(g, before, Begin(before), g.start, g.start)
  {
    assert Skipped(g, g.start) == {} && Duplicated(g, g.start) == {};
    assert FailedOnes(g, g.start) == {} && ImportedOnes(g, g.start) == {};
  }

  lemma StepCounts(g: Setting, before: Store, visit: Visitor, last: nat, end: nat, w: Work, all: Work, reached: nat,
                   next: nat)
    requires g.start <= last < end <= |g.refs| && end == last + 1
    requires visit == VisitorOf(g.scope, g.inScope, g.refs, g.replies)
    requires w == VisitAll(visit, Begin(before), g.start, last) && CountedTo(g, before, w, last, reached)
    requires all == VisitAll(visit, Begin(before), g.start, end) && next == if w.aborted then reached else end
    ensures CountedTo(g, before, all, end, next)
  {
    if w.aborted {
      VisitStops(visit, Begin(before), g.start, last, end);
    } else {
      var after := Visit(w, g.scope, g.inScope, g.refs[last], g.replies(last));
      VisitStep(g.scope, g.inScope, g.refs, g.replies, visit, Begin(before), g.start, last, w, after);
      NextCounts(g, before, w, last, after);
    }
  }

  lemma {:induction false} RunCounts(g: Setting, before: Store, visit: Visitor, end: nat, all: Work)
    returns (reached: nat)
    requires g.start <= end <= |g.refs| && visit == VisitorOf(g.scope, g.inScope, g.refs, g.replies)
    requires g.known == before.rows.Keys && all == VisitAll(visit, Begin(before), g.start, end)
    ensures CountedTo(g, before, all, end, reached)
    decreases end
  {
    if g.start < end {
      var last: nat := end - 1;
      var w := VisitAll(visit, Begin(before), g.start, last);
      var earlier := RunCounts(g, before, visit, last, w);
      reached := if w.aborted then earlier else end;
      StepCounts(g, before, visit, last, end, w, all, earlier, reached);
    } else {
      NothingCounted(g, before);
      reached := end;
    }
  }

  /** The setting of a run of a scope. */
  function SettingOf(db: Database, scope: ScopeId, inputs: Inputs): Setting
    requires scope in db.scopes
  {
    var row := db.scopes[scope];
    Setting(scope, FilterOf(inputs.given, RulesOf(row)), inputs.refs, inputs.replies, db.store.rows.Keys, StartOf(row))
  }

  /** What the counters of a run say: how many records were seen, and how many of each kind. */
  ghost predicate TallyTells(g: Setting, t: Tally, end: nat) {
    && g.start <= end && t.discovered == end - g.start
    && t.skipped == |Skipped(g, end)| && t.duplicates == |Duplicated(g, end)|
    && t.failed == |FailedOnes(g, end)| && t.imported == |ImportedOnes(g, end)|
  }

  /** What its status says: nothing failed, some records did but some were imported, or all that was left failed. */
  ghost predicate StatusTells(g: Setting, status: RunStatus, end: nat) {
    && (status == SUCCEEDED <==> forall i :: g.start <= i < end ==> !IsFailed(g, i))
    && (status == PARTIALLY_SUCCEEDED
        <==> (exists i :: g.start <= i < end && IsFailed(g, i)) && (exists i :: g.start <= i < end && IsImported(g, i)))
    && status in {SUCCEEDED, PARTIALLY_SUCCEEDED, FAILED}
  }

  lemma NoneOrSome(s: set<nat>)
    ensures |s| == 0 <==> forall i :: i !in s
  {
    if |s| != 0 {
      var i :| i in s;
    }
  }

  lemma StatusFollows(g: Setting, t: Tally, end: nat)
    requires TallyTells(g, t, end)
    ensures StatusTells(g, StatusOf(t), end)
  {
    NoneOrSome(FailedOnes(g, end));
    NoneOrSome(ImportedOnes(g, end));
    forall i: nat | g.start <= i < end
      ensures i in FailedOnes(g, end) <==> IsFailed(g, i)
      ensures i in ImportedOnes(g, end) <==> IsImported(g, i)
    {
    }
    if t.failed > 0 {
      var i :| i in FailedOnes(g, end);
    }
    if t.imported > 0 {
      var i :| i in ImportedOnes(g, end);
    }
  }

  /** The report of a run: complete up to the end of the list, or up to the record whose metadata could not be read. */
  ghost predicate RunTells(g: Setting, before: Store, w: Work, end: nat, reached: nat) {
    && TallyTells(g, w.tally, reached) && |w.store.documents| == |before.documents| + w.tally.imported
    && (!w.aborted ==> reached == end && StatusTells(g, StatusOf(w.tally), end))
    && (w.aborted ==> g.start < reached <= end && g.replies(reached - 1).MetadataThrows?)
  }

  lemma RunReports(db: Database, scope: ScopeId, inputs: Inputs, w: Work) returns (reached: nat)
    requires scope in db.scopes && w == RunWork(db, scope, inputs)
    ensures RunTells(SettingOf(db, scope, inputs), db.store, w, EndPosition(db, scope, inputs), reached)
  {
    var g, end := SettingOf(db, scope, inputs), EndPosition(db, scope, inputs);
    if g.start <= |inputs.refs| {
      reached := RunCounts(g, db.store, RunVisitor(db.scopes[scope], scope, inputs), |inputs.refs|, w);
    } else {
      NothingCounted(g, db.store);
      reached := g.start;
    }
    StatusFollows(g, w.tally, reached);
  }

  /** The same of the result. */
  ghost predicate ResultTells(db: Database, scope: ScopeId, inputs: Inputs, result: SyncResult)
    requires scope in db.scopes
  {
    var g := SettingOf(db, scope, inputs);
    match result
    case Completed(status, tally, checkpoint, _) =>
      && checkpoint == (if |inputs.refs| > g.start then |inputs.refs| else g.start)
      && TallyTells(g, tally, checkpoint) && StatusTells(g, status, checkpoint)
    case Aborted(partial) =>
      exists reached: nat :: g.start < reached <= |inputs.refs| && g.replies(reached - 1).MetadataThrows?
        && TallyTells(g, partial, reached)
  }

  lemma ResultReports(db: Database, scope: ScopeId, inputs: Inputs, w: Work)
    requires scope in db.scopes && w == RunWork(db, scope, inputs)
    ensures ResultTells(db, scope, inputs, End(w, EndPosition(db, scope, inputs)))
    ensures |w.store.documents| == |db.store.documents| + w.tally.imported
  {
    var reached := RunReports(db, scope, inputs, w);
  }

  // ---------------------------------------------------------------------------------------
  // No key is imported twice
  // ---------------------------------------------------------------------------------------

  /** Documents and rows correspond one to one. */
  ghost predicate Consistent(s: Store) {
    && (forall i :: 0 <= i < |s.documents| ==> s.documents[i] in s.rows && s.rows[s.documents[i]] == i)
    && (forall k :: k in s.rows ==> s.rows[k] < |s.documents| && s.documents[s.rows[k]] == k)
  }

  lemma ImportKeepsConsistent(s: Store, key: Key)
    requires Consistent(s)
    ensures key !in s.rows ==> Consistent(Import(s, key))
    ensures s.documents <= Import(s, key).documents
  {
  }

  lemma VisitKeepsDocuments(w: Work, scope: ScopeId, inScope: Filter, ref: Ref, reply: Reply)
    ensures w.store.documents <= Visit(w, scope, inScope, ref, reply).store.documents
  {
  }

  /** Still consistent, with documents added behind. */
  ghost predicate Grown(s: Store, t: Store) {
    Consistent(t) && s.documents <= t.documents
  }

  lemma GrownTwice(s: Store, t: Store, u: Store)
    requires Grown(s, t) && Grown(t, u)
    ensures Grown(s, u)
  {
  }

  lemma VisitOneKeepsConsistent(w: Work, scope: ScopeId, inScope: Filter, ref: Ref, reply: Reply, after: Work)
    requires Consistent(w.store) && after == Visit(w, scope, inScope, ref, reply)
    ensures Grown(w.store, after.store)
  {
    ImportKeepsConsistent(w.store, KeyOf(scope, ref));
  }

  lemma {:induction false} VisitKeepsConsistent(w: Work, scope: ScopeId, inScope: Filter, refs: seq<Ref>,
                                                replies: Replies, visit: Visitor, from: nat, end: nat)
    requires end <= |refs| && Consistent(w.store) && visit == VisitorOf(scope, inScope, refs, replies)
    ensures Grown(w.store, VisitAll(visit, w, from, end).store)
    decreases end
  {
    if from < end {
      var last: nat := end - 1;
      VisitKeepsConsistent(w, scope, inScope, refs, replies, visit, from, last);
      var before := VisitAll(visit, w, from, last);
      if before.aborted {
        VisitStops(visit, w, from, last, end);
      } else {
        var after := Visit(before, scope, inScope, refs[last], replies(last));
        VisitStep(scope, inScope, refs, replies, visit, w, from, last, before, after);
        VisitOneKeepsConsistent(before, scope, inScope, refs[last], replies(last), after);
        GrownTwice(w.store, before.store, after.store);
      }
    }
  }

  /** One run of any scope, over any list of records, with any answers. */
  datatype Run = Run(scope: ScopeId, inputs: Inputs)

  function AfterRuns(db: Database, runs: seq<Run>): Database
    decreases |runs|
  {
    if runs == [] then db
    else AfterRun(AfterRuns(db, runs[..|runs| - 1]), runs[|runs| - 1].scope, runs[|runs| - 1].inputs)
  }

  lemma RunKeepsConsistent(db: Database, scope: ScopeId, inputs: Inputs)
    requires Consistent(db.store)
    ensures Consistent(AfterRun(db, scope, inputs).store)
    ensures db.store.documents <= AfterRun(db, scope, inputs).store.documents
  {
    if Runnable(db, scope) {
      var row := db.scopes[scope];
      VisitKeepsConsistent(Begin(db.store), scope, FilterOf(inputs.given, RulesOf(row)), inputs.refs, inputs.replies,
                           RunVisitor(row, scope, inputs), StartOf(row), |inputs.refs|);
    }
  }

  lemma {:induction false} RunsKeepConsistent(db: Database, runs: seq<Run>)
    requires Consistent(db.store)
    ensures Consistent(AfterRuns(db, runs).store) && db.store.documents <= AfterRuns(db, runs).store.documents
    decreases |runs|
  {
    if runs != [] {
      var front, last := runs[..|runs| - 1], runs[|runs| - 1];
      RunsKeepConsistent(db, front);
      RunKeepsConsistent(AfterRuns(db, front), last.scope, last.inputs);
    }
  }

  function Empty(scopes: map<ScopeId, ScopeRow>): Database {
    Database(Store([], map[]), scopes, [])
  }

  /** Over any number of runs no key is imported twice, and what is imported stays. */
  lemma NeverImportedTwice(scopes: map<ScopeId, ScopeRow>, runs: seq<Run>, i: nat, j: nat)
    requires i < j < |AfterRuns(Empty(scopes), runs).store.documents|
    ensures AfterRuns(Empty(scopes), runs).store.documents[i] != AfterRuns(Empty(scopes), runs).store.documents[j]
  {
    RunsKeepConsistent(Empty(scopes), runs);
  }

  // ---------------------------------------------------------------------------------------
  // The rows of the runs
  // ---------------------------------------------------------------------------------------

  /** Every row is of a run that came to its end: its status fits its counters, and they add up. */
  ghost predicate RowsAreFinal(runs: seq<SyncRun>) {
    forall i :: 0 <= i < |runs| ==> IsFinalRow(runs[i])
  }

  predicate IsFinalRow(row: SyncRun) {
    && (row.status == SUCCEEDED <==> row.tally.failed == 0)
    && (row.status == PARTIALLY_SUCCEEDED <==> row.tally.failed > 0 && row.tally.imported > 0)
    && (row.status == FAILED <==> row.tally.failed > 0 && row.tally.imported == 0)
    && row.tally.discovered == row.tally.imported + row.tally.skipped + row.tally.duplicates + row.tally.failed
  }

  /** Everything discovered is under one heading, except the record that aborts. */
  predicate AddsUp(w: Work) {
    w.tally.discovered == Sum(w.tally) + if w.aborted then 1 else 0
  }

  lemma RunAddsUp(db: Database, scope: ScopeId, inputs: Inputs, w: Work)
    requires scope in db.scopes && w == RunWork(db, scope, inputs)
    ensures AddsUp(w)
  {
    if StartOf(db.scopes[scope]) <= |inputs.refs| {
      RunAccountsForAll(db, scope, inputs);
    }
  }

  lemma RowAdded(runs: seq<SyncRun>, row: SyncRun)
    requires RowsAreFinal(runs) && row.status == StatusOf(row.tally) && row.tally.discovered == Sum(row.tally)
    ensures RowsAreFinal(runs + [row]) && TotalImported(runs + [row]) == TotalImported(runs) + row.tally.imported
  {
    assert (runs + [row])[..|runs|] == runs;
  }

  /** What all rows together say was imported. */
  function TotalImported(runs: seq<SyncRun>): nat
    decreases |runs|
  {
    if runs == [] then 0 else TotalImported(runs[..|runs| - 1]) + runs[|runs| - 1].tally.imported
  }

  lemma RunLeavesFinalRows(db: Database, scope: ScopeId, inputs: Inputs)
    requires RowsAreFinal(db.runs)
    ensures RowsAreFinal(AfterRun(db, scope, inputs).runs)
    ensures TotalImported(db.runs) == |db.store.documents| ==>
      TotalImported(AfterRun(db, scope, inputs).runs) == |AfterRun(db, scope, inputs).store.documents|
    ensures |AfterRun(db, scope, inputs).runs|
      == |db.runs| + if Runnable(db, scope) && !RunWork(db, scope, inputs).aborted then 1 else 0
  {
    if Runnable(db, scope) {
      var w := RunWork(db, scope, inputs);
      RunAddsUp(db, scope, inputs, w);
      ResultReports(db, scope, inputs, w);
      if !w.aborted {
        RowAdded(db.runs, SyncRun(scope, StatusOf(w.tally), w.tally));
      }
    }
  }

  /** How many of the runs came to their end. */
  function CompletedRuns(db: Database, runs: seq<Run>): nat
    decreases |runs|
  {
    if runs == [] then 0
    else
      var front, last := runs[..|runs| - 1], runs[|runs| - 1];
      var before := AfterRuns(db, front);
      CompletedRuns(db, front)
        + if Runnable(before, last.scope) && !RunWork(before, last.scope, last.inputs).aborted then 1 else 0
  }

  /** Over any number of runs there is one row for each completed run, and none for an aborted one. */
  lemma {:induction false} OneRowPerCompletedRun(scopes: map<ScopeId, ScopeRow>, runs: seq<Run>)
    ensures RowsAreFinal(AfterRuns(Empty(scopes), runs).runs)
    ensures |AfterRuns(Empty(scopes), runs).runs| == CompletedRuns(Empty(scopes), runs)
    ensures TotalImported(AfterRuns(Empty(scopes), runs).runs) == |AfterRuns(Empty(scopes), runs).store.documents|
    decreases |runs|
  {
    if runs != [] {
      var front, last := runs[..|runs| - 1], runs[|runs| - 1];
      OneRowPerCompletedRun(scopes, front);
      RunLeavesFinalRows(AfterRuns(Empty(scopes), front), last.scope, last.inputs);
    }
  }

  // ---------------------------------------------------------------------------------------
  // What is imported, and what the checkpoint leaves behind
  // ---------------------------------------------------------------------------------------

  /** Record `i` has this key, was fetched, is in scope, and could be imported. */
  ghost predicate ImportedFrom(scope: ScopeId, inScope: Filter, refs: seq<Ref>, replies: Replies, i: nat, key: Key) {
    && i < |refs| && KeyOf(scope, refs[i]) == key
    && replies(i).Metadata? && inScope(replies(i).record) && replies(i).content == Importable
  }

  /** New documents come from records behind the checkpoint that are in scope. */
  lemma {:induction false} NewDocumentsAreInScope(w: Work, scope: ScopeId, inScope: Filter, refs: seq<Ref>,
                                                  replies: Replies, visit: Visitor, from: nat, end: nat, d: nat)
    returns (i: nat)
    requires from <= end <= |refs| && visit == VisitorOf(scope, inScope, refs, replies)
    requires |w.store.documents| <= d < |VisitAll(visit, w, from, end).store.documents|
    ensures from <= i < end
    ensures ImportedFrom(scope, inScope, refs, replies, i, VisitAll(visit, w, from, end).store.documents[d])
    decreases end
  {
    var before := VisitAll(visit, w, from, end - 1);
    if !before.aborted {
      VisitKeepsDocuments(before, scope, inScope, refs[end - 1], replies(end - 1));
    }
    if d < |before.store.documents| {
      i := NewDocumentsAreInScope(w, scope, inScope, refs, replies, visit, from, end - 1, d);
    } else {
      i := end - 1;
      VisitImports(before, scope, inScope, refs[i], replies(i), d);
    }
  }

  /** A visit adds a document only for its own record, if that is in scope and could be imported. */
  lemma VisitImports(w: Work, scope: ScopeId, inScope: Filter, ref: Ref, reply: Reply, d: nat)
    requires |w.store.documents| <= d < |Visit(w, scope, inScope, ref, reply).store.documents|
    ensures Visit(w, scope, inScope, ref, reply).store.documents[d] == KeyOf(scope, ref)
    ensures reply.Metadata? && inScope(reply.record) && reply.content == Importable
  {
  }

  /** What the row of a scope demands of a record, as far as it does not depend on the checkpoint. */
  ghost predicate MeetsScope(g: S.Given, row: ScopeRow, r: S.Record) {
    && !S.SomeMatch(g.lower, row.excludes, S.Haystack(r))
    && (row.includes != [] ==> S.SomeMatch(g.lower, row.includes, S.Haystack(r)))
    && r.modifiedAt.Some?
    && (row.dateFrom.Some? ==> row.dateFrom.value <= r.modifiedAt.value)
    && (row.dateTo.Some? ==> r.modifiedAt.value <= row.dateTo.value)
  }

  /** Whatever a run imports passes the scope rules it was started with. */
  lemma NothingOutOfScopeIsImported(db: Database, scope: ScopeId, inputs: Inputs, d: nat) returns (i: nat)
    requires Runnable(db, scope) && StartOf(db.scopes[scope]) <= |inputs.refs|
    requires |db.store.documents| <= d < |RunWork(db, scope, inputs).store.documents|
    ensures StartOf(db.scopes[scope]) <= i < |inputs.refs| && inputs.replies(i).Metadata?
    ensures KeyOf(scope, inputs.refs[i]) == RunWork(db, scope, inputs).store.documents[d]
    ensures S.Decide(inputs.given, RulesOf(db.scopes[scope]), inputs.replies(i).record).Pass?
    ensures MeetsScope(inputs.given, db.scopes[scope], inputs.replies(i).record)
  {
    var row := db.scopes[scope];
    i := NewDocumentsAreInScope(Begin(db.store), scope, FilterOf(inputs.given, RulesOf(row)), inputs.refs,
                                inputs.replies, RunVisitor(row, scope, inputs), StartOf(row), |inputs.refs|, d);
    S.PassingMeans(inputs.given, RulesOf(row), inputs.replies(i).record);
  }

  /**
   A completed run overwrites the patterns of a new scope with its position.  Later runs go by the
   approved types and without MIME types; the rules are the same only if they were that before.
   */
  lemma PatternsAreForgotten(db: Database, scope: ScopeId, inputs: Inputs, next: Database)
    requires Runnable(db, scope) && !RunWork(db, scope, inputs).aborted && next == AfterRun(db, scope, inputs)
    ensures scope in next.scopes && RulesOf(next.scopes[scope])
      == RulesOf(db.scopes[scope]).(references := db.scopes[scope].approvedTypes, mimeAllowlist := [])
    ensures RulesOf(next.scopes[scope]) == RulesOf(db.scopes[scope]) <==>
      db.scopes[scope].checkpoint.At?
      || db.scopes[scope].checkpoint == Patterns(db.scopes[scope].approvedTypes, [])
  {
  }

  /** The rules that do not depend on the patterns in the checkpoint field. */
  predicate OtherwiseInScope(g: S.Given, row: ScopeRow, r: S.Record) {
    && S.InScope(g.lower, row.includes, row.excludes, S.Haystack(r))
    && S.InRange(r.modifiedAt, row.dateFrom, row.dateTo)
  }

  /** The patterns that a scope was made with let the record pass. */
  predicate PassesPatterns(g: S.Given, row: ScopeRow, r: S.Record)
    requires row.checkpoint.Patterns?
  {
    && S.MatchesReferences(g.lower, row.checkpoint.references, S.References(g, r))
    && S.MimeAllowed(g, r.mimeType, row.checkpoint.mimeTypes)
  }

  /** One of its references matches a media type that is approved, or none is. */
  predicate PassesTypes(g: S.Given, row: ScopeRow, r: S.Record) {
    S.MatchesReferences(g.lower, row.approvedTypes, S.References(g, r))
  }

  /** For exactly which records a completed run turns the decision round, in either direction. */
  lemma ForgettingDecides(g: S.Given, row: ScopeRow, cursor: nat, r: S.Record)
    requires row.checkpoint.Patterns?
    ensures var first, later := S.Decide(g, RulesOf(row), r), S.Decide(g, RulesOf(Moved(row, cursor)), r);
      && (first.Fail? && later.Pass?
        <==> OtherwiseInScope(g, row, r) && PassesTypes(g, row, r) && !PassesPatterns(g, row, r))
      && (first.Pass? && later.Fail?
        <==> OtherwiseInScope(g, row, r) && !PassesTypes(g, row, r) && PassesPatterns(g, row, r))
  {
  }

  /**
   A record added to the list, and new to the scope, is imported by the next run exactly if it passes the
   later rules.
   */
  lemma NextRunImports(db: Database, scope: ScopeId, inputs: Inputs, next: Database, later: Inputs, ref: Ref,
                       record: S.Record)
    requires Runnable(db, scope) && !RunWork(db, scope, inputs).aborted && StartOf(db.scopes[scope]) <= |inputs.refs|
    requires next == AfterRun(db, scope, inputs) && later.refs == inputs.refs + [ref]
    requires later.replies(|inputs.refs|) == Metadata(record, Importable) && KeyOf(scope, ref) !in next.store.rows
    ensures scope in next.scopes
    ensures AfterRun(next, scope, later).store.documents == next.store.documents +
      if S.Decide(later.given, RulesOf(next.scopes[scope]), record).Pass? then [KeyOf(scope, ref)] else []
  {
    OneVisit(next, scope, later, ref, record);
  }

  /** A run over one record behind the checkpoint. */
  lemma OneVisit(db: Database, scope: ScopeId, inputs: Inputs, ref: Ref, record: S.Record)
    requires Runnable(db, scope) && |inputs.refs| == StartOf(db.scopes[scope]) + 1
    requires var i := StartOf(db.scopes[scope]);
      inputs.refs[i] == ref && inputs.replies(i) == Metadata(record, Importable)
    requires KeyOf(scope, ref) !in db.store.rows
    ensures AfterRun(db, scope, inputs).store.documents == db.store.documents +
      if S.Decide(inputs.given, RulesOf(db.scopes[scope]), record).Pass? then [KeyOf(scope, ref)] else []
    ensures !RunWork(db, scope, inputs).aborted
  {
    var row := db.scopes[scope];
    var start, visit := StartOf(row), RunVisitor(row, scope, inputs);
    VisitNext(visit, Begin(db.store), start, start, Begin(db.store));
    VisitorAt(scope, FilterOf(inputs.given, RulesOf(row)), inputs.refs, inputs.replies, Begin(db.store), start, ref);
  }

  function Pdf(): Text { Literal("application/pdf") }
  function Html(): Text { Literal("text/html") }

  /** An active scope as it is made, without reference patterns. */
  function NewScope(approvedTypes: seq<Text>, mimeTypes: seq<Text>): ScopeRow {
    ScopeRow(true, true, [], [], None, None, approvedTypes, Patterns([], mimeTypes))
  }

  function RecordOf(mimeType: Text): S.Record {
    S.Record([], [], Some(0), Some(mimeType), [])
  }

  function OneRecord(g: S.Given, ref: Ref, mimeType: Text): Inputs {
    Inputs(g, [ref], _ => Metadata(RecordOf(mimeType), Importable))
  }

  /** What a new scope imports of a list of one record, at once and after a run over an empty list. */
  lemma AtOnceAndLater(scope: ScopeId, row: ScopeRow, g: S.Given, ref: Ref, mimeType: Text, first: Database,
                       later: Database)
    requires Runnable(Empty(map[scope := row]), scope) && StartOf(row) == 0
    requires first == AfterRun(Empty(map[scope := row]), scope, OneRecord(g, ref, mimeType))
    requires var waited := AfterRun(Empty(map[scope := row]), scope,
      Inputs(g, [], OneRecord(g, ref, mimeType).replies));
      later == AfterRun(waited, scope, OneRecord(g, ref, mimeType))
    ensures first.store.documents
      == if S.Decide(g, RulesOf(row), RecordOf(mimeType)).Pass? then [KeyOf(scope, ref)] else []
    ensures later.store.documents
      == if S.Decide(g, RulesOf(Moved(row, 0)), RecordOf(mimeType)).Pass? then [KeyOf(scope, ref)] else []
  {
    var db, one := Empty(map[scope := row]), OneRecord(g, ref, mimeType);
    var none := Inputs(g, [], one.replies);
    OneVisit(db, scope, one, ref, RecordOf(mimeType));
    assert [] + [ref] == one.refs;
    NextRunImports(db, scope, none, AfterRun(db, scope, none), one, ref, RecordOf(mimeType));
  }

  /**
   Of a record without title and text only its media type counts at first, and later only what is found
   in nothing.
   */
  lemma DecidePlain(g: S.Given, types: seq<Text>, mimeTypes: seq<Text>, mimeType: Text)
    ensures S.Decide(g, RulesOf(NewScope(types, mimeTypes)), RecordOf(mimeType)).Pass?
      <==> S.MimeAllowed(g, Some(mimeType), mimeTypes)
    ensures S.Decide(g, RulesOf(Moved(NewScope(types, mimeTypes), 0)), RecordOf(mimeType)).Pass?
      <==> S.MatchesReferences(g.lower, types, g.extract([]))
  {
    var r := RecordOf(mimeType);
    S.TitleAndBody(r);
    assert S.References(g, r) == g.extract([]);
    assert S.InScope(g.lower, [], [], S.Haystack(r)) && S.InRange(r.modifiedAt, None, None);
    assert S.MatchesReferences(g.lower, [], g.extract([])) && S.MimeAllowed(g, Some(mimeType), []);
  }

  lemma OneType(g: S.Given, mimeType: Text, entry: Text)
    requires g.lower(entry) == entry && g.trim(mimeType) == mimeType && g.lower(mimeType) == mimeType
    requires mimeType != [] && S.SEMICOLON !in mimeType && S.STAR !in entry
    ensures S.MimeAllowed(g, Some(mimeType), [entry]) <==> mimeType == entry
  {
    SplitAbsent(mimeType, S.SEMICOLON);
    assert S.NormalizeMimeType(g, Some(mimeType)) == Some(mimeType);
    if |entry| >= 2 {
      assert entry[|entry| - 2..][1] == entry[|entry| - 1];
    }
    assert S.AllowedBy(mimeType, entry) <==> mimeType == entry;
    assert g.lower([entry][0]) == entry;
  }

  lemma Types()
    ensures S.SEMICOLON !in Pdf() && S.STAR !in Pdf() && S.SEMICOLON !in Html() && Pdf() != Html()
  {
    assert |Pdf()| != |Html()|;
  }

  /**
   For instance, a scope for PDF files only: an HTML page is kept out, but the same page is imported if
   it comes up after a run that had nothing to do.
   */
  lemma HtmlSlipsIn(scope: ScopeId, g: S.Given, ref: Ref, first: Database, later: Database)
    requires g.lower(Pdf()) == Pdf() && g.trim(Html()) == Html() && g.lower(Html()) == Html()
    requires var db, one := Empty(map[scope := NewScope([], [Pdf()])]), OneRecord(g, ref, Html());
      && first == AfterRun(db, scope, one)
      && later == AfterRun(AfterRun(db, scope, Inputs(g, [], one.replies)), scope, one)
    ensures first.store.documents == [] && later.store.documents == [KeyOf(scope, ref)]
  {
    Types();
    OneType(g, Html(), Pdf());
    DecidePlain(g, [], [Pdf()], Html());
    AtOnceAndLater(scope, NewScope([], [Pdf()]), g, ref, Html(), first, later);
  }

  /**
   The other way round: with PDF as an approved type, which is also what the MIME list then holds, a
   PDF file without references is imported, but not after such a run.
   */
  lemma PdfIsKeptOut(scope: ScopeId, g: S.Given, ref: Ref, first: Database, later: Database)
    requires g.lower(Pdf()) == Pdf() && g.trim(Pdf()) == Pdf() && g.extract([]) == []
    requires var db, one := Empty(map[scope := NewScope([Pdf()], [Pdf()])]), OneRecord(g, ref, Pdf());
      && first == AfterRun(db, scope, one)
      && later == AfterRun(AfterRun(db, scope, Inputs(g, [], one.replies)), scope, one)
    ensures first.store.documents == [KeyOf(scope, ref)] && later.store.documents == []
  {
    Types();
    OneType(g, Pdf(), Pdf());
    DecidePlain(g, [Pdf()], [Pdf()], Pdf());
    assert !S.MatchesReferences(g.lower, [Pdf()], g.extract([]));
    AtOnceAndLater(scope, NewScope([Pdf()], [Pdf()]), g, ref, Pdf(), first, later);
  }

  /**
   A completed run moves the checkpoint behind every record, also behind those that failed or were
   skipped.  The next run, over the list with `more` records added, does not visit them again.
   */
  lemma CheckpointLeavesBehind(db: Database, scope: ScopeId, inputs: Inputs, next: Database, later: Inputs)
    requires Runnable(db, scope) && !RunWork(db, scope, inputs).aborted && StartOf(db.scopes[scope]) <= |inputs.refs|
    requires next == AfterRun(db, scope, inputs) && inputs.refs <= later.refs
    ensures Runnable(next, scope) && StartOf(next.scopes[scope]) == |inputs.refs|
    ensures Accounted(RunWork(next, scope, later), later.refs, |inputs.refs|, |later.refs|)
  {
    assert StartOf(next.scopes[scope]) == |inputs.refs|;
    RunAccountsForAll(next, scope, later);
  }

  /** In particular a run over the same list imports nothing: what failed is never tried again. */
  lemma NothingIsRetried(db: Database, scope: ScopeId, inputs: Inputs, next: Database, again: Inputs)
    requires Runnable(db, scope) && !RunWork(db, scope, inputs).aborted && again.refs == inputs.refs
    requires next == AfterRun(db, scope, inputs)
    ensures Runnable(next, scope) && RunWork(next, scope, again) == Begin(next.store)
    ensures AfterRun(next, scope, again).store == next.store && AfterRun(next, scope, again).scopes == next.scopes
  {
    var row := next.scopes[scope];
    assert StartOf(row) >= |again.refs|;
    assert next.scopes[scope := Moved(row, StartOf(row))] == next.scopes;
  }
}
