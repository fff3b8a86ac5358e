/** Draining the outbox: one publication run over a page of pending events, and how many runs it
    takes to publish everything. */
module Publishing {
  import opened Core
  import opened Tables
  import opened Stores

  /** An event publisher. `answers` is how the environment answers its n-th call (`None` accepts, the
      rest is an error text); `log` is what it was asked to publish. */
  class Publisher {
    const answers: nat -> Option<string>
    var log: seq<OutboxRow>

    constructor (answers: nat -> Option<string>)
      ensures this.answers == answers && log == []
    {
      this.answers, log := answers, [];
    }

    method Publish(e: OutboxRow) returns (error: Option<string>)
      modifies this
      ensures error == answers(|old(log)|) && log == old(log) + [e]
    {
      error := answers(|log|);
      log := log + [e];
    }
  }

  datatype PublishResult = PublishResult(processed: int, published: int, failed: int)

  ghost predicate UniqueIds(rows: seq<OutboxRow>) {
    forall i, j :: 0 <= i < j < |rows| ==> rows[i].id != rows[j].id
  }

  /** How one publication run went: the page, the publisher's answer and the time for each event. */
  datatype Session = Session(page: seq<OutboxRow>, answers: nat -> Option<string>, base: nat, clock: nat -> int) {
    ghost function Answer(i: nat): Option<string> {
      answers(base + i)
    }

    /** The outbox after the first k events of the page have been recorded with their answers. */
    ghost function Recorded(rows: seq<OutboxRow>, k: nat): (after: seq<OutboxRow>)
      requires k <= |page|
      ensures |after| == |rows|
    {
      if k == 0 then rows
      else
        var r := Mark(Recorded(rows, k - 1), page[k - 1].id, Answer(k - 1), clock(k - 1));
        if r.Ok? then r.value else Recorded(rows, k - 1)
    }

    ghost function Refused(k: nat): nat {
      if k == 0 then 0 else Refused(k - 1) + if Answer(k - 1).Some? then 1 else 0
    }

    /** An event's row once its publication has been attempted. */
    ghost function Attempted(row: OutboxRow, j: nat): OutboxRow {
      Marked(row, Answer(j), clock(j))
    }
  }

  ghost function Marked(row: OutboxRow, error: Option<string>, at: int): OutboxRow {
    row.(attempts := row.attempts + 1, lastError := error,
         publishedAt := if error.None? then Some(at) else row.publishedAt)
  }

  // ---------- rows across marking ----------

  lemma {:induction false} PendingsMembers(rows: seq<OutboxRow>)
    ensures forall r :: r in Pendings(rows) <==> r in rows && r.publishedAt.None?
    ensures UniqueIds(rows) ==> UniqueIds(Pendings(rows))
  {
    if rows != [] {
      var init, last := rows[..|rows| - 1], rows[|rows| - 1];
      PendingsMembers(init);
      if UniqueIds(rows) && last.publishedAt.None? {
        forall i | 0 <= i < |Pendings(init)| ensures Pendings(init)[i].id != last.id {
          assert Pendings(init)[i] in init;
        }
      }
    }
  }

  /** No event twice, and only pending rows of the table as they stand there. */
  ghost predicate Selection(rows: seq<OutboxRow>, page: seq<OutboxRow>) {
    UniqueIds(page) && forall i :: 0 <= i < |page| ==> page[i] in rows && page[i].publishedAt.None?
  }

  lemma PageRows(rows: seq<OutboxRow>, limit: int, page: seq<OutboxRow>)
    requires UniqueIds(rows) && PendingPage(rows, limit, page)
    ensures Selection(rows, page)
  {
    PendingsMembers(rows);
    forall i | 0 <= i < |page| ensures page[i] in rows && page[i].publishedAt.None? {
      assert page[i] in multiset(page);
      assert page[i] in multiset(Pendings(rows));
    }
    forall i, j | 0 <= i < j < |page| ensures page[i].id != page[j].id {
      if page[i].id == page[j].id {
        SameRow(Pendings(rows), page[i], page[j]);
        CountTwice(page, i, j);
        CountOnce(Pendings(rows), page[i]);
      }
    }
  }

  lemma SameRow(rows: seq<OutboxRow>, a: OutboxRow, b: OutboxRow)
    requires UniqueIds(rows) && a in rows && b in rows && a.id == b.id
    ensures a == b
  {
  }

  lemma CountTwice(page: seq<OutboxRow>, i: nat, j: nat)
    requires i < j < |page| && page[i] == page[j]
    ensures multiset(page)[page[i]] >= 2
  {
    assert page == page[..i] + [page[i]] + page[i + 1..j] + [page[j]] + page[j + 1..];
  }

  lemma {:induction false} CountOnce(rows: seq<OutboxRow>, r: OutboxRow)
    requires UniqueIds(rows)
    ensures multiset(rows)[r] <= 1
  {
    if rows != [] {
      CountOnce(rows[..|rows| - 1], r);
      assert rows == rows[..|rows| - 1] + [rows[|rows| - 1]];
      if r == rows[|rows| - 1] {
        assert r !in rows[..|rows| - 1];
      }
    }
  }

  lemma {:induction false} RecordedIds(rows: seq<OutboxRow>, s: Session, k: nat)
    requires k <= |s.page|
    ensures forall i :: 0 <= i < |rows| ==> s.Recorded(rows, k)[i].id == rows[i].id
  {
    if k > 0 {
      RecordedIds(rows, s, k - 1);
    }
  }

  lemma IndexAfter(rows: seq<OutboxRow>, s: Session, k: nat, i: nat)
    requires UniqueIds(rows) && k <= |s.page| && i < |rows|
    ensures OutboxAt(s.Recorded(rows, k), rows[i].id) == i
  {
    RecordedIds(rows, s, k);
  }

  lemma MarkAt(rows: seq<OutboxRow>, id: string, error: Option<string>, at: int, i: nat)
    requires i < |rows| && OutboxAt(rows, id) == i
    ensures Mark(rows, id, error, at) == Ok(rows[i := Marked(rows[i], error, at)])
  {
  }

  /** Recording one more event rewrites its row and no other. */
  lemma RecordedStep(rows: seq<OutboxRow>, s: Session, k: nat, i: nat)
    requires UniqueIds(rows) && k < |s.page| && i < |rows| && rows[i].id == s.page[k].id
    ensures OutboxAt(s.Recorded(rows, k), s.page[k].id) == i
    ensures Mark(s.Recorded(rows, k), s.page[k].id, s.Answer(k), s.clock(k)) == Ok(s.Recorded(rows, k + 1))
    ensures s.Recorded(rows, k + 1) == s.Recorded(rows, k)[i := s.Attempted(s.Recorded(rows, k)[i], k)]
  {
    IndexAfter(rows, s, k, i);
    MarkAt(s.Recorded(rows, k), s.page[k].id, s.Answer(k), s.clock(k), i);
  }

  /** An event the run did not reach is as before. */
  lemma {:induction false} Unreached(rows: seq<OutboxRow>, s: Session, k: nat, i: nat)
    requires UniqueIds(rows) && k <= |s.page| && i < |rows|
    requires forall j :: 0 <= j < k ==> s.page[j].id != rows[i].id
    ensures s.Recorded(rows, k)[i] == rows[i]
  {
    if k > 0 {
      Unreached(rows, s, k - 1, i);
      PassedOver(rows, s, k - 1, i);
    }
  }

  lemma PassedOver(rows: seq<OutboxRow>, s: Session, k: nat, i: nat)
    requires UniqueIds(rows) && k < |s.page| && i < |rows| && s.page[k].id != rows[i].id
    ensures s.Recorded(rows, k + 1)[i] == s.Recorded(rows, k)[i]
  {
    RecordedIds(rows, s, k);
  }

  /** An event the run reached has one more attempt, its error, and a publication time exactly when the
      publisher accepted it. */
  lemma {:induction false} Reached(rows: seq<OutboxRow>, s: Session, k: nat, i: nat, j: nat)
    requires UniqueIds(rows) && UniqueIds(s.page) && j < k <= |s.page| && i < |rows|
    requires s.page[j].id == rows[i].id
    ensures s.Recorded(rows, k)[i] == s.Attempted(rows[i], j)
  {
    if j < k - 1 {
      Reached(rows, s, k - 1, i, j);
      PassedOver(rows, s, k - 1, i);
    } else {
      JustReached(rows, s, j, i);
    }
  }

  lemma JustReached(rows: seq<OutboxRow>, s: Session, j: nat, i: nat)
    requires UniqueIds(rows) && UniqueIds(s.page) && j < |s.page| && i < |rows| && s.page[j].id == rows[i].id
    ensures s.Recorded(rows, j + 1)[i] == s.Attempted(rows[i], j)
  {
    Unreached(rows, s, j, i);
    RecordedStep(rows, s, j, i);
  }

  // ---------- one run ----------

  /** Hand the i-th event of the page to the publisher and record its answer; `down` when the database
      fails at the recording. */
  method PublishEvent(store: Store, publisher: Publisher, event: OutboxRow, at: int, down: bool,
                      ghost rows: seq<OutboxRow>, ghost s: Session, ghost log: seq<OutboxRow>, ghost i: nat)
    returns (accepted: Result<bool>)
    requires UniqueIds(rows) && i < |s.page| && event == s.page[i] && event in rows && at == s.clock(i)
    requires s.answers == publisher.answers && s.base == |log|
    requires store.outbox == s.Recorded(rows, i) && publisher.log == log + s.page[..i]
    modifies store`outbox, publisher
    ensures publisher.log == log + s.page[..i + 1]
    ensures down ==> accepted == Err(Internal) && store.outbox == s.Recorded(rows, i)
    ensures !down ==> accepted == Ok(s.Answer(i).None?) && store.outbox == s.Recorded(rows, i + 1)
                      && s.Refused(i + 1) == s.Refused(i) + if s.Answer(i).Some? then 1 else 0
  {
    OneFurther(log, s.page, i);
    ghost var k := KnownEvent(rows, s, i);
    var error := publisher.Publish(event);
    assert error == s.Answer(i);
    if down {
      return Err(Internal);
    }
    var _ := store.MarkEvent(event.id, error, at);
    accepted := Ok(error.None?);
  }

  /** What a run over session s does and reports, when the database fails at mark statement `broken`. */
  ghost predicate Ran(rows: seq<OutboxRow>, log: seq<OutboxRow>, s: Session, broken: Option<nat>, after: seq<OutboxRow>,
                      laterLog: seq<OutboxRow>, r: Result<PublishResult>)
  {
    var n := |s.page|;
    if broken.Some? && broken.value < n then
      && r == Err(Internal)
      && after == s.Recorded(rows, broken.value) && laterLog == log + s.page[..broken.value + 1]
    else
      && r == Ok(PublishResult(n, n - s.Refused(n), s.Refused(n)))
      && after == s.Recorded(rows, n) && laterLog == log + s.page
  }

  method PublishPage(store: Store, publisher: Publisher, events: seq<OutboxRow>, clock: nat -> int, broken: Option<nat>)
    returns (r: Result<PublishResult>)
    requires UniqueIds(store.outbox) && Selection(store.outbox, events)
    modifies store`outbox, publisher
    ensures Ran(old(store.outbox), old(publisher.log), Session(events, publisher.answers, |old(publisher.log)|, clock),
                broken,
                store.outbox, publisher.log, r)
  {
    ghost var s, rows := Session(events, publisher.answers, |publisher.log|, clock), store.outbox;
    var published, failed := 0, 0;
    for i := 0 to |events|
      invariant published == i - failed && failed == s.Refused(i)
      invariant store.outbox == s.Recorded(rows, i)
      invariant publisher.log == old(publisher.log) + events[..i]
      invariant broken.None? || broken.value >= i
    {
      var accepted := PublishEvent(store, publisher, events[i], clock(i), broken.Some? && broken.value == i,
                                   rows, s, old(publisher.log), i);
      if accepted.Err? {
        return Err(accepted.code);
      }
      if accepted.value {
        published := published + 1;
      } else {
        failed := failed + 1;
      }
    }
    assert events[..|events|] == events;
    r := Ok(PublishResult(|events|, published, failed));
  }

  /** One publication run over a page of pending events. If the database fails at some mark statement,
      the run stops with an error after that event was handed to the publisher, and every event not yet
      marked stays pending; otherwise processed = published + failed = the whole page. */
  method PublishOutbox(store: Store, publisher: Publisher, limit: int, clock: nat -> int, broken: Option<nat>)
    returns (r: Result<PublishResult>, ghost s: Session)
    requires UniqueIds(store.outbox)
    modifies store`outbox, publisher
    ensures PendingPage(old(store.outbox), limit, s.page)
    ensures s == Session(s.page, publisher.answers, |old(publisher.log)|, clock)
    ensures Ran(old(store.outbox), old(publisher.log), s, broken, store.outbox, publisher.log, r)
    ensures r.Ok? ==> SuccessfulRun(old(store.outbox), old(publisher.log), s, store.outbox, publisher.log, r, limit)
  {
    var events := store.ListPending(limit);
    s := Session(events, publisher.answers, |publisher.log|, clock);
    PageRows(store.outbox, limit, events);
    r := PublishPage(store, publisher, events, clock, broken);
  }

  lemma OneFurther(before: seq<OutboxRow>, page: seq<OutboxRow>, i: nat)
    requires i < |page|
    ensures before + page[..i] + [page[i]] == before + page[..i + 1]
  {
  }

  lemma KnownEvent(rows: seq<OutboxRow>, s: Session, k: nat) returns (i: nat)
    requires UniqueIds(rows) && k < |s.page| && s.page[k] in rows
    ensures i < |rows| && rows[i] == s.page[k]
    ensures OutboxAt(s.Recorded(rows, k), s.page[k].id) == i
    ensures Mark(s.Recorded(rows, k), s.page[k].id, s.Answer(k), s.clock(k)) == Ok(s.Recorded(rows, k + 1))
    ensures s.Refused(k + 1) == s.Refused(k) + if s.Answer(k).Some? then 1 else 0
  {
    i :| 0 <= i < |rows| && rows[i] == s.page[k];
    RecordedStep(rows, s, k, i);
  }

  // ---------- draining ----------

  lemma {:induction false} MarkedPendings(rows: seq<OutboxRow>, i: nat, after: OutboxRow)
    requires i < |rows| && rows[i].publishedAt.None? && after.publishedAt.Some?
    ensures |Pendings(rows[i := after])| == |Pendings(rows)| - 1
  {
    var last, next := |rows| - 1, rows[i := after];
    if i == last {
      assert next[..last] == rows[..last];
    } else {
      assert next[..last] == rows[..last][i := after];
      MarkedPendings(rows[..last], i, after);
    }
  }

  lemma DrainsOne(rows: seq<OutboxRow>, s: Session, k: nat)
    requires UniqueIds(rows) && Selection(rows, s.page) && k < |s.page| && s.Refused(k + 1) == 0
    ensures s.Refused(k) == 0
    ensures |Pendings(s.Recorded(rows, k + 1))| == |Pendings(s.Recorded(rows, k))| - 1
  {
    var i := KnownEvent(rows, s, k);
    RecordedStep(rows, s, k, i);
    Unreached(rows, s, k, i);
    MarkedPendings(s.Recorded(rows, k), i, s.Attempted(rows[i], k));
  }

  /** A run in which the publisher accepted everything takes exactly its page off the pending events. */
  lemma {:induction false} RecordedDrains(rows: seq<OutboxRow>, s: Session, k: nat)
    requires UniqueIds(rows) && Selection(rows, s.page) && k <= |s.page| && s.Refused(k) == 0
    ensures |Pendings(s.Recorded(rows, k))| == |Pendings(rows)| - k
  {
    if k > 0 {
      RecordedDrains(rows, s, k - 1);
      DrainsOne(rows, s, k - 1);
    }
  }

  /** A successful PublishOutbox over session s: its page holds as many pending events as there are, up to
      the limit. */
  ghost predicate SuccessfulRun(before: seq<OutboxRow>, log: seq<OutboxRow>, s: Session, after: seq<OutboxRow>,
                                laterLog: seq<OutboxRow>, r: Result<PublishResult>, limit: int)
  {
    && Selection(before, s.page) && s.base == |log|
    && |s.page| == (if |Pendings(before)| <= Cap(limit) then |Pendings(before)| else Cap(limit))
    && r.Ok? && exists broken :: Ran(before, log, s, broken, after, laterLog, r)
  }

  ghost predicate AlwaysAccepts(answers: nat -> Option<string>) {
    forall i :: answers(i).None?
  }

  lemma {:induction false} NoneRefused(s: Session, k: nat)
    requires AlwaysAccepts(s.answers)
    ensures s.Refused(k) == 0
  {
    if k > 0 {
      NoneRefused(s, k - 1);
      assert s.answers(s.base + (k - 1)).None?;
    }
  }

  lemma SuccessOf(before: seq<OutboxRow>, log: seq<OutboxRow>, s: Session, after: seq<OutboxRow>,
                  laterLog: seq<OutboxRow>, r: Result<PublishResult>, limit: int)
    requires SuccessfulRun(before, log, s, after, laterLog, r, limit)
    ensures r.value.processed == |s.page| && r.value.failed == s.Refused(|s.page|)
    ensures r.value.published == |s.page| - s.Refused(|s.page|)
    ensures after == s.Recorded(before, |s.page|) && laterLog == log + s.page
  {
  }

  /** With an always-accepting publisher a successful run publishes its whole page, which is as many pending
      events as there are, up to the limit. */
  lemma AcceptingRun(before: seq<OutboxRow>, log: seq<OutboxRow>, s: Session, after: seq<OutboxRow>,
                     laterLog: seq<OutboxRow>, r: Result<PublishResult>, limit: int)
    requires UniqueIds(before) && AlwaysAccepts(s.answers) && SuccessfulRun(before, log, s, after, laterLog, r, limit)
    ensures r.value.processed == r.value.published == |s.page| && r.value.failed == 0 && laterLog == log + s.page
    ensures UniqueIds(after)
             && |Pendings(after)| == |Pendings(before)| - |s.page| == Max0(|Pendings(before)| - Cap(limit))
  {
    SuccessOf(before, log, s, after, laterLog, r, limit);
    NoneRefused(s, |s.page|);
    PageDrains(before, s);
  }

  lemma PageDrains(rows: seq<OutboxRow>, s: Session)
    requires UniqueIds(rows) && Selection(rows, s.page) && s.Refused(|s.page|) == 0
    ensures UniqueIds(s.Recorded(rows, |s.page|))
    ensures |Pendings(s.Recorded(rows, |s.page|))| == |Pendings(rows)| - |s.page|
  {
    RecordedDrains(rows, s, |s.page|);
    RecordedIds(rows, s, |s.page|);
  }

  ghost function Max0(x: int): nat {
    if x < 0 then 0 else x
  }

  datatype Publication = Publication(session: Session, after: seq<OutboxRow>, laterLog: seq<OutboxRow>,
                                     result: Result<PublishResult>)

  /** Successful runs one after another, by one publisher, with no other writes to the outbox. */
  ghost predicate SuccessfulRuns(start: seq<OutboxRow>, log: seq<OutboxRow>, runs: seq<Publication>,
                                 answers: nat -> Option<string>, limit: int)
    decreases |runs|
  {
    runs == []
    || (var p := runs[0];
        && p.session.answers == answers && SuccessfulRun(start, log, p.session, p.after, p.laterLog, p.result, limit)
        && SuccessfulRuns(p.after, p.laterLog, runs[1..], answers, limit))
  }

  ghost function End(start: seq<OutboxRow>, runs: seq<Publication>): seq<OutboxRow>
    decreases |runs|
  {
    if runs == [] then start else End(runs[0].after, runs[1..])
  }

  lemma FirstRun(start: seq<OutboxRow>, log: seq<OutboxRow>, runs: seq<Publication>, answers: nat -> Option<string>,
                 limit: int)
    requires runs != [] && UniqueIds(start) && AlwaysAccepts(answers)
    requires SuccessfulRuns(start, log, runs, answers, limit)
    ensures SuccessfulRuns(runs[0].after, runs[0].laterLog, runs[1..], answers, limit)
    ensures UniqueIds(runs[0].after) && |Pendings(runs[0].after)| == Max0(|Pendings(start)| - Cap(limit))
  {
    var p := runs[0];
    AcceptingRun(start, log, p.session, p.after, p.laterLog, p.result, limit);
  }

  /** What is left of n events after k pages. */
  ghost function Left(n: nat, k: nat, cap: nat): nat
    decreases k
  {
    if k == 0 then n else Left(Max0(n - cap), k - 1, cap)
  }

  lemma {:induction false} LeftInClosedForm(n: nat, k: nat, cap: nat)
    ensures Left(n, k, cap) == Max0(n - k * cap)
    ensures Left(n, k, cap) == 0 <==> n <= k * cap
    decreases k
  {
    if k > 0 {
      LeftInClosedForm(Max0(n - cap), k - 1, cap);
      assert (k - 1) * cap + cap == k * cap && (k - 1) * cap >= 0;
    }
  }

  /** With an always-accepting publisher and no new events, each successful run takes a full page, so
      (by LeftInClosedForm) n pending events are gone exactly from the ceil(n/limit)-th run on. */
  lemma {:induction false} DrainsInCeiling(start: seq<OutboxRow>, log: seq<OutboxRow>, runs: seq<Publication>,
                                           answers: nat -> Option<string>, limit: int)
    requires UniqueIds(start) && AlwaysAccepts(answers) && SuccessfulRuns(start, log, runs, answers, limit)
    ensures |Pendings(End(start, runs))| == Left(|Pendings(start)|, |runs|, Cap(limit))
    decreases |runs|
  {
    if runs != [] {
      var p := runs[0];
      FirstRun(start, log, runs, answers, limit);
      DrainsInCeiling(p.after, p.laterLog, runs[1..], answers, limit);
    }
  }
}
