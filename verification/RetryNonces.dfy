/**
 Operator retries of one failed run under an idempotency key (`/internal/runs/:id/retry` in
 apps/api/src/brandwell-management.ts). A write is one committed transaction; requests, the
 executor and eligibility changes interleave between them in any order.
 */
module RetryNonces {
  import opened Options
  import opened Logs

  datatype Status = Queued | Leased | Running | WaitingInput | WaitingTakeover | Completed | Failed | Cancelled

  datatype RunRow = RunRow(status: Status, retryNonces: seq<string>, updatedAt: nat)

  /**
   One audit row of action `run.retry`. The row itself only names the run and its bot; the request that wrote
   it and that request's nonce are the model's bookkeeping.
   */
  datatype Audit = Audit(request: nat, nonce: Option<string>)

  /** `past` holds every version the run's row has had, the current one last. */
  datatype Db = Db(row: RunRow, task: Status, eligible: bool, audits: seq<Audit>, past: seq<RunRow>)

  datatype Write =
    | Executor(status: Status, taskStatus: Status, at: nat)
    | Reset(request: nat, seen: RunRow, nonce: Option<string>, resetAt: nat)
    | Eligibility(eligible: bool)

  function NonceList(nonce: Option<string>): seq<string> {
    if nonce.Some? then [nonce.value] else []
  }

  function Rewrite(db: Db, row: RunRow): Db {
    db.(row := row, past := db.past + [row])
  }

  /** The guard of `updateMany`. */
  predicate Fires(db: Db, seen: RunRow) {
    db.row.status.Failed? && db.row.updatedAt == seen.updatedAt
  }

  function Apply(db: Db, w: Write): Db {
    match w
    case Executor(status, taskStatus, at) =>
      Rewrite(db, db.row.(status := status, updatedAt := at)).(task := taskStatus)
    case Reset(request, seen, nonce, at) =>
      if !Fires(db, seen) then db
      else
        Rewrite(db, RunRow(Queued, db.row.retryNonces + NonceList(nonce), at))
          .(task := Queued, audits := db.audits + [Audit(request, nonce)])
    case Eligibility(eligible) => db.(eligible := eligible)
  }

  /** A reset whose version is still current re-queues run and task and keeps every nonce; any other changes nothing. */
  lemma ResetRequeues(db: Db, w: Write)
    requires w.Reset?
    ensures var after := Apply(db, w);
            if db.row.status == Failed && db.row.updatedAt == w.seen.updatedAt then
              && after.row.status == Queued && after.task == Queued && after.row.updatedAt == w.resetAt
              && (w.nonce == None ==> after.row.retryNonces == db.row.retryNonces)
              && (w.nonce.Some? ==> after.row.retryNonces == db.row.retryNonces + [w.nonce.value])
              && after.audits == db.audits + [Audit(w.request, w.nonce)]
              && after.past == db.past + [after.row] && after.eligible == db.eligible
            else after == db
  {
  }

  /** A request resets with a version it has read, failed and without its nonce. */
  predicate ReadBefore(db: Db, seen: RunRow, nonce: Option<string>) {
    seen in db.past && seen.status.Failed? && (nonce.Some? ==> nonce.value !in seen.retryNonces)
  }

  predicate WroteAudit(db: Db, request: nat) {
    exists a :: a in db.audits && a.request == request
  }

  /** What the database and the protocol allow: every write to the run advances its timestamp. */
  predicate Legal(db: Db, w: Write) {
    match w
    case Executor(_, _, at) => at > db.row.updatedAt
    case Reset(request, seen, nonce, at) =>
      at > db.row.updatedAt && ReadBefore(db, seen, nonce) && !WroteAudit(db, request)
    case Eligibility(_) => true
  }

  // ----- what every write keeps

  function AuditedNonces(audits: seq<Audit>): seq<string> {
    if audits == [] then []
    else AuditedNonces(audits[..|audits| - 1]) + NonceList(audits[|audits| - 1].nonce)
  }

  ghost predicate Distinct(s: seq<string>) {
    forall i, j :: 0 <= i < j < |s| ==> s[i] != s[j]
  }

  /** The versions of the row have increasing timestamps, and the last is the current one. */
  ghost predicate InOrder(db: Db) {
    && db.past != [] && db.past[|db.past| - 1] == db.row
    && forall i, j :: 0 <= i < j < |db.past| ==> db.past[i].updatedAt < db.past[j].updatedAt
  }

  /** The recorded nonces are distinct, and those of the audit rows, which different requests wrote. */
  ghost predicate Audited(db: Db) {
    && Distinct(db.row.retryNonces)
    && AuditedNonces(db.audits) == db.row.retryNonces
    && forall i, j :: 0 <= i < j < |db.audits| ==> db.audits[i].request != db.audits[j].request
  }

  ghost predicate Invariant(db: Db) {
    InOrder(db) && Audited(db)
  }

  /** The timestamp guard fires exactly when the run has not been written since it was read. */
  lemma FiresIffUnwritten(db: Db, seen: RunRow)
    requires Invariant(db) && seen in db.past && seen.status.Failed?
    ensures Fires(db, seen) <==> db.row == seen
  {
    var i :| 0 <= i < |db.past| && db.past[i] == seen;
  }

  lemma RewriteKeepsOrder(db: Db, row: RunRow)
    requires InOrder(db) && row.updatedAt > db.row.updatedAt
    ensures InOrder(Rewrite(db, row))
  {
  }

  lemma FiringKeepsAudited(db: Db, seen: RunRow, request: nat, nonce: Option<string>, at: nat)
    requires Invariant(db) && Legal(db, Reset(request, seen, nonce, at)) && Fires(db, seen)
    ensures Audited(Apply(db, Reset(request, seen, nonce, at)))
  {
    FiresIffUnwritten(db, seen);
    var next := Apply(db, Reset(request, seen, nonce, at));
    assert next.audits[..|next.audits| - 1] == db.audits;
    assert forall i :: 0 <= i < |db.audits| ==> db.audits[i] in db.audits;
  }

  lemma ApplyKeepsInvariant(db: Db, w: Write)
    requires Invariant(db) && Legal(db, w)
    ensures Invariant(Apply(db, w))
  {
    match w
    case Executor(status, taskStatus, at) => RewriteKeepsOrder(db, db.row.(status := status, updatedAt := at));
    case Reset(request, seen, nonce, at) =>
      if Fires(db, seen) {
        RewriteKeepsOrder(db, RunRow(Queued, db.row.retryNonces + NonceList(nonce), at));
        FiringKeepsAudited(db, seen, request, nonce, at);
      }
    case Eligibility(_) =>
  }

  /** A nonce never leaves the run, and an audit row is never removed. */
  lemma ApplyGrows(db: Db, w: Write)
    ensures db.row.retryNonces <= Apply(db, w).row.retryNonces
    ensures db.audits <= Apply(db, w).audits
    ensures db.past <= Apply(db, w).past
  {
  }

  function StartDb(status: Status, task: Status, at: nat, eligible: bool): Db {
    var row := RunRow(status, [], at);
    Db(row, task, eligible, [], [row])
  }

  ghost predicate Runs(db: Db, writes: seq<Write>)
    decreases |writes|
  {
    writes == [] || (Legal(db, writes[0]) && Runs(Apply(db, writes[0]), writes[1..]))
  }

  ghost function Outcome(db: Db, writes: seq<Write>): Db
    decreases |writes|
  {
    if writes == [] then db else Outcome(Apply(db, writes[0]), writes[1..])
  }

  lemma {:induction false} RunKeepsInvariant(db: Db, writes: seq<Write>)
    requires Invariant(db) && Runs(db, writes)
    ensures Invariant(Outcome(db, writes))
    ensures db.row.retryNonces <= Outcome(db, writes).row.retryNonces && db.audits <= Outcome(db, writes).audits
    decreases |writes|
  {
    if writes != [] {
      ApplyKeepsInvariant(db, writes[0]);
      ApplyGrows(db, writes[0]);
      RunKeepsInvariant(Apply(db, writes[0]), writes[1..]);
    }
  }

  function Requeues(db: Db, writes: seq<Write>): nat
    decreases |writes|
  {
    if writes == [] then 0
    else
      (if writes[0].Reset? && Fires(db, writes[0].seen) then 1 else 0)
      + Requeues(Apply(db, writes[0]), writes[1..])
  }

  lemma {:induction false} OneAuditPerRequeue(db: Db, writes: seq<Write>)
    ensures |Outcome(db, writes).audits| == |db.audits| + Requeues(db, writes)
    decreases |writes|
  {
    if writes != [] {
      OneAuditPerRequeue(Apply(db, writes[0]), writes[1..]);
    }
  }

  lemma {:induction false} AuditPosition(audits: seq<Audit>, i: nat) returns (k: nat)
    requires i < |audits| && audits[i].nonce.Some?
    ensures k == |AuditedNonces(audits[..i])| < |AuditedNonces(audits)|
    ensures AuditedNonces(audits)[k] == audits[i].nonce.value
  {
    var init := audits[..|audits| - 1];
    if i < |init| {
      k := AuditPosition(init, i);
      assert init[..i] == audits[..i];
    } else {
      k := |AuditedNonces(init)|;
    }
  }

  lemma AuditsBefore(audits: seq<Audit>, i: nat, j: nat)
    requires i < j <= |audits| && audits[i].nonce.Some?
    ensures |AuditedNonces(audits[..i])| < |AuditedNonces(audits[..j])|
  {
    var k := AuditPosition(audits[..j], i);
    assert audits[..j][..i] == audits[..i];
  }

  /** Over every run and for each nonce: at most one request re-queued the run under it. */
  lemma NonceRequeuesOnce(db: Db, i: nat, j: nat)
    requires Invariant(db) && i < j < |db.audits| && db.audits[i].nonce.Some?
    ensures db.audits[i].nonce != db.audits[j].nonce
  {
    if db.audits[j].nonce.Some? {
      var a := AuditPosition(db.audits, i);
      var b := AuditPosition(db.audits, j);
      AuditsBefore(db.audits, i, j);
    }
  }

  /** Every interleaving of requests, executor and eligibility changes, from any new run. */
  lemma EveryRun(db: Db, writes: seq<Write>)
    requires db == StartDb(db.row.status, db.task, db.row.updatedAt, db.eligible) && Runs(db, writes)
    ensures var after := Outcome(db, writes);
            && Distinct(after.row.retryNonces)
            && AuditedNonces(after.audits) == after.row.retryNonces
            && |after.audits| == Requeues(db, writes)
            && (forall i, j :: 0 <= i < j < |after.audits| && after.audits[i].nonce.Some?
                  ==> after.audits[i].nonce != after.audits[j].nonce)
            && (forall i, j :: 0 <= i < j < |after.audits| ==> after.audits[i].request != after.audits[j].request)
  {
    RunKeepsInvariant(db, writes);
    OneAuditPerRequeue(db, writes);
    var after := Outcome(db, writes);
    forall i, j | 0 <= i < j < |after.audits| && after.audits[i].nonce.Some?
      ensures after.audits[i].nonce != after.audits[j].nonce
    {
      NonceRequeuesOnce(after, i, j);
    }
  }

  /**
   The timestamp must strictly advance. If the executor fails the re-queued run again within the
   millisecond of the failure that both requests read, the same nonce re-queues it twice.
   */
  lemma SameTimestampDefeatsTheGuard(nonce: string)
    ensures var db := StartDb(Failed, Failed, 7, true);
            var first := Apply(db, Reset(1, db.row, Some(nonce), 7));
            var failedAgain := Apply(first, Executor(Failed, Failed, 7));
            Apply(failedAgain, Reset(2, db.row, Some(nonce), 7)).row.retryNonces == [nonce, nonce]
  {
  }

  // ----- recorded histories

  predicate Recorded(first: Db, log: Log<Write>)
    decreases log, 0
  {
    match log
    case Begin => true
    case Then(before, w, _) => Recorded(first, before) && Legal(State(first, before), w)
  }

  /** The rows after the log. */
  function State(first: Db, log: Log<Write>): Db
    requires Recorded(first, log)
    decreases log, 1
  {
    match log
    case Begin => first
    case Then(before, w, _) => Apply(State(first, before), w)
  }

  predicate Grown(before: Db, after: Db) {
    before.row.retryNonces <= after.row.retryNonces && before.audits <= after.audits && before.past <= after.past
  }

  lemma {:induction false} RecordedGrows(first: Db, a: Log<Write>, b: Log<Write>)
    requires Invariant(first) && Recorded(first, b) && Continues(a, b)
    ensures Recorded(first, a) && Invariant(State(first, a)) && Invariant(State(first, b))
    ensures Grown(State(first, a), State(first, b))
    decreases b
  {
    if b.Then? {
      RecordedGrows(first, if a == b then a.before else a, b.before);
      ApplyKeepsInvariant(State(first, b.before), b.write);
      ApplyGrows(State(first, b.before), b.write);
    }
  }

  /** The executor failed the run after `a` and by `b`. */
  predicate FailedBetween(a: Log<Write>, b: Log<Write>) {
    a != b && b.Then? && ((b.write.Executor? && b.write.status == Failed) || FailedBetween(a, b.before))
  }

  lemma {:induction false} UnfailedStays(first: Db, a: Log<Write>, b: Log<Write>)
    requires Recorded(first, b) && Continues(a, b) && !FailedBetween(a, b)
    ensures Recorded(first, a)
    ensures State(first, a).row.status != Failed ==> State(first, b).row.status != Failed
    decreases b
  {
    if a != b {
      UnfailedStays(first, a, b.before);
    }
  }

  /** Over every history: between any two resets that fire, the executor failed the run again. */
  lemma FailureBetweenRequeues(first: Db, a: Log<Write>, mine: Write, own: bool, b: Log<Write>, next: Write)
    requires Recorded(first, b) && Continues(Then(a, mine, own), b) && Legal(State(first, b), next)
    requires Recorded(first, a) && mine.Reset? && next.Reset?
    requires State(first, a).row.status == Failed && State(first, a).row.updatedAt == mine.seen.updatedAt
    requires |Apply(State(first, b), next).audits| > |State(first, b).audits|
    ensures FailedBetween(Then(a, mine, own), b)
  {
    if !FailedBetween(Then(a, mine, own), b) {
      UnfailedStays(first, Then(a, mine, own), b);
    }
  }

  // ----- the route

  datatype Response =
    | NotFound
    | NotRetryable
    /** A read or the transaction rejected. */
    | ServerError
    /** The re-queue is durable but its worker was not woken. */
    | DispatchFailed
    | Accepted(status: Status, replayed: Option<bool>)

  /** How the transaction ends for its caller; a lost one took effect. */
  datatype Transaction = Aborts | Answers | Loses

  datatype RetryFaults = RetryFaults(readRejects: bool, transaction: Transaction, rereadRejects: bool,
                                     dispatchRejects: bool)

  /** The answer once the run is queued, or was under this nonce. */
  function Dispatched(status: Status, nonce: Option<string>, replayed: bool, f: RetryFaults): Response {
    if status.Queued? && f.dispatchRejects then DispatchFailed
    else Accepted(status, if nonce.Some? then Some(replayed) else None)
  }

  /** The run was re-queued under the nonce. */
  predicate Known(run: RunRow, nonce: Option<string>) {
    nonce.Some? && nonce.value in run.retryNonces
  }

  /**
   All of a request, from `a` to `b`: the run is read at `looked`, reset at `at` with the time `time`, and after a
   lost race read again at `again`.
   */
  ghost predicate RetryFits(first: Db, a: Log<Write>, b: Log<Write>, me: nat, nonce: Option<string>, f: RetryFaults,
                            response: Response, looked: Log<Write>, at: Log<Write>, time: nat, again: Log<Write>)
  {
    && Recorded(first, b) && Recorded(first, looked) && Continues(a, looked) && Continues(looked, b)
    && var seen := State(first, looked);
       if f.readRejects then Own(b) == Own(a) && response == ServerError
       else if !seen.eligible then Own(b) == Own(a) && response == NotFound
       else if Known(seen.row, nonce) then
         Own(b) == Own(a) && response == Dispatched(seen.row.status, nonce, true, f)
       else if SendsReset(seen, nonce, f) then
         ResetFits(first, looked, b, me, seen.row, nonce, f, response, at, time, again)
       else Own(b) == Own(a) && response == if seen.row.status.Failed? then ServerError else NotRetryable
  }

  /** The part of a request that sends its transaction, for a run read as `pending`. */
  ghost predicate ResetFits(first: Db, a: Log<Write>, b: Log<Write>, me: nat, pending: RunRow, nonce: Option<string>,
                            f: RetryFaults, response: Response, at: Log<Write>, time: nat, again: Log<Write>)
  {
    && Recorded(first, b) && Recorded(first, at) && Continues(a, at)
    && if Fires(State(first, at), pending) then
         var reset := Reset(me, pending, nonce, time);
         && Continues(Then(at, reset, true), b) && Own(b) == Own(a) + [reset]
         && response == if f.transaction.Loses? then ServerError else Dispatched(Queued, nonce, false, f)
       else
         && Continues(at, b) && Own(b) == Own(a)
         && if f.transaction.Loses? then response == ServerError else AgainFits(first, at, b, nonce, f, response, again)
  }

  /** The second read of a request that lost the race. */
  ghost predicate AgainFits(first: Db, a: Log<Write>, b: Log<Write>, nonce: Option<string>, f: RetryFaults,
                            response: Response, again: Log<Write>)
    requires Recorded(first, b)
  {
    if f.rereadRejects then response == ServerError
    else
      && Recorded(first, again) && Continues(a, again) && Continues(again, b)
      && var run := State(first, again);
         response == if run.eligible && Known(run.row, nonce) then Dispatched(run.row.status, nonce, true, f)
                     else NotRetryable
  }

  lemma KnownStays(first: Db, a: Log<Write>, b: Log<Write>, nonce: Option<string>)
    requires Invariant(first) && Recorded(first, b) && Continues(a, b)
    ensures Recorded(first, a) && (Known(State(first, a).row, nonce) ==> Known(State(first, b).row, nonce))
  {
    RecordedGrows(first, a, b);
  }

  lemma ReadStays(first: Db, a: Log<Write>, b: Log<Write>, pending: RunRow, nonce: Option<string>)
    requires Invariant(first) && Recorded(first, b) && Continues(a, b)
    ensures Recorded(first, a) && (ReadBefore(State(first, a), pending, nonce) ==> ReadBefore(State(first, b), pending,
                                                                                              nonce))
  {
    RecordedGrows(first, a, b);
  }

  /** A reset that fired is in the audit rows and among the nonces for good. */
  lemma ResetStays(first: Db, at: Log<Write>, b: Log<Write>, me: nat, pending: RunRow, nonce: Option<string>, time: nat)
    requires Invariant(first) && Recorded(first, b) && Continues(Then(at, Reset(me, pending, nonce, time), true), b)
    requires Recorded(first, at) && Fires(State(first, at), pending)
    ensures Audit(me, nonce) in State(first, b).audits && (nonce.Some? ==> Known(State(first, b).row, nonce))
  {
    var reset := Then(at, Reset(me, pending, nonce, time), true);
    RecordedGrows(first, reset, b);
    assert State(first, reset).audits[|State(first, at).audits|] == Audit(me, nonce);
    assert State(first, b).audits[|State(first, at).audits|] == Audit(me, nonce);
    if nonce.Some? {
      assert State(first, reset).row.retryNonces[|State(first, at).row.retryNonces|] == nonce.value;
    }
  }

  /**
   What a response tells. A request re-queues at most once, and then its audit row and its nonce are there for good.
   Only one that re-queued says `replayed: false`, or hides that behind a failed dispatch or a lost transaction;
   one that says `replayed: true` has its nonce recorded. A nonce recorded before the request is only replayed.
   */
  lemma ResponseTells(first: Db, a: Log<Write>, b: Log<Write>, me: nat, nonce: Option<string>, f: RetryFaults,
                      response: Response, looked: Log<Write>, at: Log<Write>, time: nat, again: Log<Write>)
    requires Invariant(first) && RetryFits(first, a, b, me, nonce, f, response, looked, at, time, again)
    requires Own(looked) == Own(a)
    ensures Recorded(first, a) && Recorded(first, looked)
    ensures Own(b) == Own(a) || Own(b) == Own(a) + [Reset(me, State(first, looked).row, nonce, time)]
    ensures Own(b) != Own(a) ==>
              && Audit(me, nonce) in State(first, b).audits && (nonce.Some? ==> Known(State(first, b).row, nonce))
              && (response.DispatchFailed? || (response.ServerError? && f.transaction.Loses?)
                  || (response.Accepted? && response.replayed != Some(true)))
    ensures response.Accepted? ==>
              && (response.replayed.Some? <==> nonce.Some?)
              && (response.replayed != Some(true) ==> Own(b) != Own(a))
              && (response.replayed == Some(true) ==> Known(State(first, b).row, nonce))
    ensures Known(State(first, a).row, nonce) ==> Own(b) == Own(a)
  {
    KnownStays(first, a, looked, nonce);
    KnownStays(first, looked, b, nonce);
    if SendsReset(State(first, looked), nonce, f) {
      ResetTells(first, looked, b, me, State(first, looked).row, nonce, f, response, at, time, again);
    }
  }

  lemma ResetTells(first: Db, a: Log<Write>, b: Log<Write>, me: nat, pending: RunRow, nonce: Option<string>,
                   f: RetryFaults, response: Response, at: Log<Write>, time: nat, again: Log<Write>)
    requires Invariant(first) && ResetFits(first, a, b, me, pending, nonce, f, response, at, time, again)
    ensures Own(b) != Own(a) ==>
              && Own(b) == Own(a) + [Reset(me, pending, nonce, time)]
              && Audit(me, nonce) in State(first, b).audits && (nonce.Some? ==> Known(State(first, b).row, nonce))
              && (response.DispatchFailed? || (response.ServerError? && f.transaction.Loses?)
                  || (response.Accepted? && response.replayed == if nonce.Some? then Some(false) else None))
    ensures Own(b) == Own(a) && response.Accepted? ==> response.replayed == Some(true) && Known(State(first, b).row,
                                                                                                nonce)
  {
    if Fires(State(first, at), pending) {
      ResetStays(first, at, b, me, pending, nonce, time);
    } else if !f.transaction.Loses? && !f.rereadRejects {
      KnownStays(first, again, b, nonce);
    }
  }

  /** A request that must re-queue the run if nobody writes it in between. */
  predicate SendsReset(seen: Db, nonce: Option<string>, f: RetryFaults) {
    !f.readRejects && seen.eligible && !Known(seen.row, nonce) && seen.row.status.Failed? && !f.transaction.Aborts?
  }

  /**
   An accepted retry told the truth: at an instant of the call the run had the status it was told and held its
   nonce, and unless the retry was a replay, run and task were queued then, by its own reset.
   */
  lemma AcceptedWasSo(first: Db, a: Log<Write>, b: Log<Write>, me: nat, nonce: Option<string>, f: RetryFaults,
                      response: Response, looked: Log<Write>, at: Log<Write>, time: nat, again: Log<Write>)
    returns (told: Log<Write>)
    requires Invariant(first) && RetryFits(first, a, b, me, nonce, f, response, looked, at, time, again)
    requires response.Accepted?
    ensures Recorded(first, told) && Continues(a, told) && Continues(told, b)
    ensures State(first, told).row.status == response.status
    ensures nonce.Some? ==> nonce.value in State(first, told).row.retryNonces
    ensures response.replayed != Some(true) ==>
              && told == Then(at, Reset(me, State(first, looked).row, nonce, time), true)
              && State(first, told).row.status == Queued && State(first, told).task == Queued
  {
    var seen := State(first, looked);
    if seen.row.status != Failed || Known(seen.row, nonce) {
      return looked;
    }
    told := ResetWasSo(first, looked, b, me, seen.row, nonce, f, response, at, time, again);
    ContinuesTransitive(a, looked, told);
  }

  /** The same for the part of the request that sends its transaction. */
  lemma ResetWasSo(first: Db, a: Log<Write>, b: Log<Write>, me: nat, pending: RunRow, nonce: Option<string>,
                   f: RetryFaults, response: Response, at: Log<Write>, time: nat, again: Log<Write>)
    returns (told: Log<Write>)
    requires Invariant(first) && ResetFits(first, a, b, me, pending, nonce, f, response, at, time, again)
    requires response.Accepted?
    ensures Recorded(first, told) && Continues(a, told) && Continues(told, b)
    ensures State(first, told).row.status == response.status
    ensures nonce.Some? ==> nonce.value in State(first, told).row.retryNonces
    ensures response.replayed != Some(true) ==>
              && told == Then(at, Reset(me, pending, nonce, time), true)
              && State(first, told).row.status == Queued && State(first, told).task == Queued
  {
    told := again;
    if State(first, at).row.status == Failed && State(first, at).row.updatedAt == pending.updatedAt {
      told := Then(at, Reset(me, pending, nonce, time), true);
      RecordedGrows(first, told, b);
      assert nonce.Some? ==> State(first, told).row.retryNonces[|State(first, at).row.retryNonces|] == nonce.value;
    }
    ContinuesTransitive(a, at, told);
  }

  /** What a request must answer by what it read, when it sends no transaction. */
  lemma RetryMust(first: Db, a: Log<Write>, b: Log<Write>, me: nat, nonce: Option<string>, f: RetryFaults,
                  response: Response, looked: Log<Write>, at: Log<Write>, time: nat, again: Log<Write>)
    requires Invariant(first) && RetryFits(first, a, b, me, nonce, f, response, looked, at, time, again)
    ensures response == NotFound <==> !f.readRejects && !State(first, looked).eligible
    ensures f.readRejects ==> Own(b) == Own(a) && response == ServerError
    ensures !f.readRejects && State(first, looked).eligible ==>
              var run := State(first, looked).row;
              var replay := nonce.Some? && nonce.value in run.retryNonces;
              && (replay ==>
                    && Own(b) == Own(a)
                    && response == if run.status == Queued && f.dispatchRejects then DispatchFailed
                                   else Accepted(run.status, Some(true)))
              && (!replay && run.status != Failed ==> Own(b) == Own(a) && response == NotRetryable)
              && (!replay && run.status == Failed ==>
                    if f.transaction == Aborts then Own(b) == Own(a) && response == ServerError
                    else ResetFits(first, looked, b, me, run, nonce, f, response, at, time, again))
  {
  }

  /**
   What a request that sends its transaction must do and answer: it re-queues the run if that is still failed with
   the timestamp it read, and is otherwise answered by the row it reads again.
   */
  lemma ResetMust(first: Db, a: Log<Write>, b: Log<Write>, me: nat, pending: RunRow, nonce: Option<string>,
                  f: RetryFaults, response: Response, at: Log<Write>, time: nat, again: Log<Write>)
    requires ResetFits(first, a, b, me, pending, nonce, f, response, at, time, again)
    ensures f.transaction == Loses ==> response == ServerError
    ensures var fired := State(first, at).row.status == Failed && State(first, at).row.updatedAt == pending.updatedAt;
            && Own(b) == Own(a) + (if fired then [Reset(me, pending, nonce, time)] else [])
            && (fired && f.transaction != Loses ==>
                  response == if f.dispatchRejects then DispatchFailed
                              else Accepted(Queued, if nonce.Some? then Some(false) else None))
            && (!fired && f.transaction != Loses ==>
                  if f.rereadRejects then response == ServerError
                  else
                    var now := State(first, again);
                    response == if !now.eligible || nonce.None? || nonce.value !in now.row.retryNonces then NotRetryable
                                else if now.row.status == Queued && f.dispatchRejects then DispatchFailed
                                else Accepted(now.row.status, Some(true)))
  {
  }

  class RetryRoute {
    ghost var first: Db
    ghost var log: Log<Write>
    var db: Db
    /** Runs whose worker has been woken. */
    var enqueued: nat

    ghost predicate Valid()
      reads this
    {
      Invariant(first) && Recorded(first, log) && State(first, log) == db && Invariant(db)
    }

    constructor (status: Status, task: Status, at: nat, eligible: bool)
      ensures Valid() && db == StartDb(status, task, at, eligible) && log == Begin && enqueued == 0
    {
      db, enqueued := StartDb(status, task, at, eligible), 0;
      first, log := StartDb(status, task, at, eligible), Begin;
    }

    /** Any writes of anyone else, between two awaits of request `me`. */
    method Interfere(me: nat, ghost start: Log<Write>)
      requires Valid() && Continues(start, log)
      modifies this`db, this`log
      ensures Valid() && Continues(old(log), log) && Continues(start, log) && Own(log) == Own(old(log))
      ensures WroteAudit(db, me) <==> WroteAudit(old(db), me)
    {
      var steps: int := *;
      for n := 0 to if steps < 0 then 0 else steps
        invariant Valid() && Continues(old(log), log) && Own(log) == Own(old(log))
        invariant WroteAudit(db, me) <==> WroteAudit(old(db), me)
      {
        var w: Write := *;
        if Legal(db, w) && !(w.Reset? && w.request == me) {
          OtherWrites(me, w);
        }
      }
      ContinuesTransitive(start, old(log), log);
    }

    method OtherWrites(me: nat, w: Write)
      requires Valid() && Legal(db, w) && !(w.Reset? && w.request == me)
      modifies this`db, this`log
      ensures Valid() && log == Then(old(log), w, false)
      ensures WroteAudit(db, me) <==> WroteAudit(old(db), me)
    {
      ApplyKeepsInvariant(db, w);
      assert forall a :: a in Apply(db, w).audits && a.request == me ==> a in db.audits;
      assert db.audits <= Apply(db, w).audits;
      db, log := Apply(db, w), Then(log, w, false);
    }

    /** The guarded transaction: run, task and audit row together, or nothing. */
    method ResetRun(me: nat, pending: RunRow, nonce: Option<string>) returns (reset: bool, ghost time: nat)
      requires Valid() && ReadBefore(db, pending, nonce) && !WroteAudit(db, me)
      modifies this`db, this`log
      ensures Valid()
      ensures reset <==> Fires(old(db), pending)
      ensures log == if reset then Then(old(log), Reset(me, pending, nonce, time), true) else old(log)
    {
      time := 0;
      if db.row.status != Failed || db.row.updatedAt != pending.updatedAt {
        return false, time;
      }
      var later: int := *;
      var at := db.row.updatedAt + if later < 1 then 1 else later;
      ApplyKeepsInvariant(db, Reset(me, pending, nonce, at));
      WriteReset(me, pending, nonce, at);
      log := Then(log, Reset(me, pending, nonce, at), true);
      reset, time := true, at;
    }

    /** The statements of the transaction. */
    method WriteReset(me: nat, pending: RunRow, nonce: Option<string>, at: nat)
      requires Fires(db, pending)
      modifies this`db
      ensures db == Apply(old(db), Reset(me, pending, nonce, at))
    {
      var row := RunRow(Queued, db.row.retryNonces + NonceList(nonce), at);
      db := db.(row := row, past := db.past + [row]);
      db := db.(task := Queued);
      db := db.(audits := db.audits + [Audit(me, nonce)]);
    }

    /** One request: it is answered as `RetryFits` says, whatever interleaves. */
    method Retry(me: nat, nonce: Option<string>, f: RetryFaults)
      returns (response: Response, ghost looked: Log<Write>, ghost at: Log<Write>, ghost time: nat,
               ghost again: Log<Write>)
      requires Valid() && !WroteAudit(db, me)
      modifies this
      ensures Valid() && first == old(first)
      ensures RetryFits(first, old(log), log, me, nonce, f, response, looked, at, time, again)
      ensures Own(looked) == Own(old(log))
      ensures enqueued == old(enqueued) + if response.Accepted? && response.status.Queued? then 1 else 0
    {
      Interfere(me, log);
      looked, at, time, again := log, log, 0, log;
      if f.readRejects {
        response := ServerError;
        return;
      }
      if !db.eligible {
        response := NotFound;
        return;
      }
      var run := db.row;
      if Known(run, nonce) {
        response := Dispatch(me, run.status, nonce, true, f);
        return;
      }
      if run.status != Failed {
        response := NotRetryable;
        return;
      }
      if f.transaction.Aborts? {
        response := ServerError;
        return;
      }
      response, at, time, again := ResetAndAnswer(me, run, nonce, f);
    }

    /** The transaction, the second read of a request that lost the race, and the dispatch. */
    method ResetAndAnswer(me: nat, pending: RunRow, nonce: Option<string>, f: RetryFaults)
      returns (response: Response, ghost at: Log<Write>, ghost time: nat, ghost again: Log<Write>)
      requires Valid() && !WroteAudit(db, me) && ReadBefore(db, pending, nonce) && !f.transaction.Aborts?
      modifies this
      ensures Valid() && first == old(first)
      ensures Continues(old(log), log) && ResetFits(first, old(log), log, me, pending, nonce, f, response, at, time,
                                                    again)
      ensures enqueued == old(enqueued) + if response.Accepted? && response.status.Queued? then 1 else 0
    {
      Wait(me, pending, nonce);
      at, again := log, log;
      var reset;
      reset, time := ResetRun(me, pending, nonce);
      ghost var sent := log;
      response, again := AnswerReset(me, nonce, reset, f);
      ContinuesTransitive(old(log), sent, log);
    }

    /** The answer to a transaction that did or did not match. */
    method AnswerReset(me: nat, nonce: Option<string>, reset: bool, f: RetryFaults)
      returns (response: Response, ghost again: Log<Write>)
      requires Valid() && !f.transaction.Aborts?
      modifies this
      ensures Valid() && first == old(first) && Continues(old(log), log) && Own(log) == Own(old(log))
      ensures if f.transaction.Loses? then response == ServerError
              else if reset then response == Dispatched(Queued, nonce, false, f)
              else AgainFits(first, old(log), log, nonce, f, response, again)
      ensures enqueued == old(enqueued) + if response.Accepted? && response.status.Queued? then 1 else 0
    {
      again := log;
      if f.transaction.Loses? {
        response := ServerError;
      } else if reset {
        response := Dispatch(me, Queued, nonce, false, f);
      } else {
        response, again := ReadAgain(me, nonce, f);
      }
    }

    /** The await before the transaction: what was read stays one of the row's versions. */
    method Wait(me: nat, pending: RunRow, nonce: Option<string>)
      requires Valid() && !WroteAudit(db, me) && ReadBefore(db, pending, nonce)
      modifies this`db, this`log
      ensures Valid() && Continues(old(log), log) && Own(log) == Own(old(log))
      ensures !WroteAudit(db, me) && ReadBefore(db, pending, nonce)
    {
      Interfere(me, log);
      ReadStays(first, old(log), log, pending, nonce);
    }

    method ReadAgain(me: nat, nonce: Option<string>, f: RetryFaults)
      returns (response: Response, ghost again: Log<Write>)
      requires Valid()
      modifies this
      ensures Valid() && first == old(first) && Continues(old(log), log) && Own(log) == Own(old(log))
      ensures AgainFits(first, old(log), log, nonce, f, response, again)
      ensures enqueued == old(enqueued) + if response.Accepted? && response.status.Queued? then 1 else 0
    {
      Interfere(me, log);
      again := log;
      if f.rereadRejects {
        return ServerError, again;
      }
      if !db.eligible || !Known(db.row, nonce) {
        return NotRetryable, again;
      }
      response := Dispatch(me, db.row.status, nonce, true, f);
      ContinuesTransitive(old(log), again, log);
    }

    /** Wakes the worker of a queued run. */
    method Dispatch(me: nat, status: Status, nonce: Option<string>, replayed: bool, f: RetryFaults)
      returns (response: Response)
      requires Valid()
      modifies this
      ensures Valid() && first == old(first) && Continues(old(log), log) && Own(log) == Own(old(log))
      ensures response == Dispatched(status, nonce, replayed, f)
      ensures enqueued == old(enqueued) + if response.Accepted? && response.status.Queued? then 1 else 0
    {
      Interfere(me, log);
      if status.Queued? {
        if f.dispatchRejects {
          return DispatchFailed;
        }
        enqueued := enqueued + 1;
      }
      response := Accepted(status, if nonce.Some? then Some(replayed) else None);
    }
  }

  /** At most one response for a nonce says `replayed: false`. */
  lemma OneFreshResponse(db: Db, a: nat, b: nat, nonce: string)
    requires Invariant(db) && Audit(a, Some(nonce)) in db.audits && Audit(b, Some(nonce)) in db.audits
    ensures a == b
  {
    var i :| 0 <= i < |db.audits| && db.audits[i] == Audit(a, Some(nonce));
    var j :| 0 <= j < |db.audits| && db.audits[j] == Audit(b, Some(nonce));
    if i < j {
      NonceRequeuesOnce(db, i, j);
    } else if j < i {
      NonceRequeuesOnce(db, j, i);
    }
  }
}
