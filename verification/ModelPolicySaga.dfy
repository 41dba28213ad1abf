/**
 The workspace model-policy update (apps/api/src/brandwell-management.ts): provider limits are
 changed key by key before one database transaction, and any failure calls the provider again to
 undo them. A rejected call may still have taken effect. The policy lease keeps other updates of
 the same workspace out, so nothing else writes these rows and keys meanwhile.
 */
module ModelPolicySaga {
  import opened Options
  import opened ModelPolicy

  /** A managed key's row; `recorded` is the provider limit last read back. */
  datatype Credential = Credential(key: Option<nat>, policy: Policy, recorded: Option<int>, syncError: bool)

  /** The master's credential first, then its sidekicks'. */
  datatype Rows = Rows(all: seq<Credential>, inherits: bool)

  datatype State = State(rows: Rows, provider: map<nat, int>)

  datatype Reply = Updated | Rejected(status: nat) | LimitsRejected | NeedsReconciliation | NotSaved

  /** How the provider answers a call: a rejected one may have taken effect. */
  datatype Answer = Answer(ok: bool, took: bool)

  /** How the transaction ends; a lost one took effect. */
  datatype Transaction = Commits | Aborts | Loses

  /**
   How an update is answered: whether its lease is free and it has a validator and a way to change limits, each
   renewal of the lease, the calls that change and undo a credential's limit, and the transaction.
   */
  datatype Answers = Answers(free: bool, validator: bool, updater: bool, renews: nat -> bool,
                             change: nat -> Answer, undo: nat -> Answer, transaction: Transaction)

  /** How an update leaves the route. */
  datatype End = Refused | Saved | LimitsFailed | Unsaved | LostCommit

  /**
   One update: the plan, the credentials to change in order, how many it attempted and how many of these it
   called the provider for, whether it undid them, and how it ended.
   */
  datatype Exit = Exit(next: Master, targets: seq<nat>, attempted: nat, called: nat, end: End, answers: Answers)

  predicate Managed(rows: Rows, provider: map<nat, int>) {
    && rows.all != []
    && (forall i :: 0 <= i < |rows.all| && rows.all[i].key.Some? ==> rows.all[i].key.value in provider)
    && (forall i, j :: 0 <= i < j < |rows.all| && rows.all[i].key.Some? ==> rows.all[i].key != rows.all[j].key)
  }

  predicate Linked(rows: Rows, i: nat) {
    i < |rows.all| && rows.all[i].key.Some?
  }

  function Key(rows: Rows, i: nat): nat
    requires Linked(rows, i)
  {
    rows.all[i].key.value
  }

  function Limit(rows: Rows, i: nat): int
    requires i < |rows.all|
  {
    rows.all[i].policy.monthly
  }

  /** The credentials whose provider limit is not the stored one. */
  function Disagree(s: State): set<nat>
    requires Managed(s.rows, s.provider)
  {
    set i: nat | i < |s.rows.all| && s.rows.all[i].key.Some?
                 && s.provider[s.rows.all[i].key.value] != s.rows.all[i].policy.monthly
  }

  function Targets(rows: Rows, limit: int): set<nat> {
    set i: nat | i < |rows.all| && rows.all[i].policy.monthly != limit
  }

  function AsWorkspace(rows: Rows): Workspace
    requires rows.all != []
  {
    Workspace(Master(rows.all[0].policy, rows.inherits),
              seq(|rows.all| - 1, i requires 0 <= i < |rows.all| - 1 => rows.all[i + 1].policy))
  }

  /** The transaction's row for one credential. */
  function CommitCredential(c: Credential, next: Policy, target: bool): Credential {
    c.(policy := next.(provider := c.policy.provider), recorded := if target then None else c.recorded)
  }

  function CommitRows(rows: Rows, next: Master, targets: set<nat>): Rows {
    Rows(seq(|rows.all|, i requires 0 <= i < |rows.all| => CommitCredential(rows.all[i], next.policy, i in targets)),
         next.inherits)
  }

  lemma CommitRowsIsCommitPlan(rows: Rows, next: Master, targets: set<nat>)
    requires rows.all != []
    ensures AsWorkspace(CommitRows(rows, next, targets)) == CommitPlan(AsWorkspace(rows), next)
  {
    assert AsWorkspace(CommitRows(rows, next, targets)).sidekicks == CommitPlan(AsWorkspace(rows), next).sidekicks;
  }

  /** A commit forgets the provider limit last read exactly where the limit changes; keys and errors stay. */
  lemma CommittedRow(rows: Rows, next: Master, i: nat)
    requires i < |rows.all|
    ensures var before, after := rows.all[i], CommitRows(rows, next, Targets(rows, next.policy.monthly)).all[i];
            && after.policy == next.policy.(provider := before.policy.provider)
            && after.key == before.key && after.syncError == before.syncError
            && after.recorded == if before.policy.monthly != next.policy.monthly then None else before.recorded
  {
  }

  /** The same rows, except that an error may have been recorded on them. */
  predicate OnlyMarked(a: Rows, b: Rows) {
    && a.inherits == b.inherits && |a.all| == |b.all|
    && forall i :: 0 <= i < |a.all| ==> a.all[i] == b.all[i].(syncError := a.all[i].syncError)
  }

  // ----- calls

  predicate Took(answer: Answer) {
    answer.ok || answer.took
  }

  /** The first `n` of the targets. */
  function First(targets: seq<nat>, n: nat): set<nat>
    requires n <= |targets|
  {
    set i | i in targets[..n]
  }

  /** The targets are the credentials whose limit changes, each once, and all of them linked. */
  ghost predicate AreTargets(rows: Rows, limit: int, targets: seq<nat>) {
    && (forall i :: i in targets <==> i in Targets(rows, limit))
    && (forall i :: i in targets ==> Linked(rows, i))
    && (forall j, k :: 0 <= j < k < |targets| ==> targets[j] != targets[k])
  }

  /** A key's limit after the calls that changed it and those that undid that. */
  function LimitAfter(before: int, i: nat, limit: int, stored: int, called: set<nat>, undone: set<nat>,
                      f: Answers): int {
    if i in undone && Took(f.undo(i)) then stored
    else if i in called && Took(f.change(i)) then limit
    else before
  }

  /** The provider's limits after those calls. */
  ghost predicate Called(rows: Rows, a: map<nat, int>, b: map<nat, int>, limit: int, called: set<nat>, undone: set<nat>,
                         f: Answers)
    requires Managed(rows, a)
  {
    && b.Keys == a.Keys
    && forall i :: Linked(rows, i) ==>
         b[Key(rows, i)] == LimitAfter(a[Key(rows, i)], i, limit, Limit(rows, i), called, undone, f)
  }

  // ----- exits

  /** Every target was called for and the call accepted. */
  ghost predicate AllMade(targets: seq<nat>, attempted: nat, called: nat, f: Answers) {
    called == attempted == |targets| && forall i :: i in targets ==> f.change(i).ok
  }

  lemma AllMadeExactly(targets: seq<nat>, attempted: nat, called: nat, f: Answers)
    requires Attempts(targets, attempted, called, f)
    ensures AllMade(targets, attempted, called, f) <==>
              forall k :: 0 <= k < |targets| ==> f.renews(k) && f.change(targets[k]).ok
  {
    if AllMade(targets, attempted, called, f) {
      assert forall k :: 0 <= k < |targets| ==> targets[k] in targets;
    }
  }

  /** The attempts go on in order until a renewal or a call fails, and the failing one is among them. */
  ghost predicate Attempts(targets: seq<nat>, attempted: nat, called: nat, f: Answers) {
    && called <= attempted <= |targets| && attempted <= called + 1
    && (forall k :: 0 <= k < called ==> f.renews(k))
    && (forall k :: 0 <= k < attempted - 1 ==> f.change(targets[k]).ok)
    && (called < attempted ==> !f.renews(called))
    && (called == attempted < |targets| ==> called > 0 && !f.change(targets[called - 1]).ok)
  }

  function Attempted(e: Exit): set<nat>
    requires e.attempted <= |e.targets|
  {
    First(e.targets, e.attempted)
  }

  /** The credentials an exit called the provider for a second time: all it had attempted, unless it saved. */
  function Undone(e: Exit): set<nat>
    requires e.attempted <= |e.targets|
  {
    if e.end.Refused? || e.end.Saved? then {} else Attempted(e)
  }

  /** Those whose undoing call was rejected. */
  function RejectedUndoes(e: Exit): set<nat>
    requires e.attempted <= |e.targets|
  {
    set i | i in Undone(e) && !e.answers.undo(i).ok
  }

  /**
   The keys an exit may leave apart: those with a rejected undoing call, or all it called when its commit was
   lost.
   */
  function Unsettled(e: Exit): set<nat>
    requires e.attempted <= |e.targets|
  {
    if e.end.LostCommit? then Attempted(e) else RejectedUndoes(e)
  }

  /** The number of provider calls. */
  function Calls(e: Exit): nat
    requires e.attempted <= |e.targets|
  {
    e.called + if e.end.Refused? || e.end.Saved? then 0 else e.attempted
  }

  function EndOf(transaction: Transaction): End {
    match transaction
    case Commits => Saved
    case Aborts => Unsaved
    case Loses => LostCommit
  }

  /** One update from `a` to `b`: which calls it made, what they did to the limits, and what it wrote. */
  ghost predicate Exits(a: State, b: State, e: Exit) {
    var limit := e.next.policy.monthly;
    && Managed(a.rows, a.provider) && Attempts(e.targets, e.attempted, e.called, e.answers)
    && Called(a.rows, a.provider, b.provider, limit, First(e.targets, e.called), Undone(e), e.answers)
    && if e.end.Refused? then e.attempted == 0 && b.rows == a.rows
       else
         && AreTargets(a.rows, limit, e.targets)
         && e.end == (if !AllMade(e.targets, e.attempted, e.called, e.answers) then LimitsFailed
                      else EndOf(e.answers.transaction))
         && (if e.end.Saved? then b.rows == CommitRows(a.rows, e.next, Targets(a.rows, limit))
             else if e.end.LostCommit? then Marked(b.rows, CommitRows(a.rows, e.next, Targets(a.rows, limit)), e)
             else Marked(b.rows, a.rows, e))
  }

  /** An error is recorded at most when an undoing call was rejected. */
  ghost predicate Marked(a: Rows, b: Rows, e: Exit)
    requires e.attempted <= |e.targets|
  {
    OnlyMarked(a, b) && (RejectedUndoes(e) == {} ==> a == b)
  }

  lemma FirstMembers(targets: seq<nat>, n: nat)
    requires n <= |targets|
    ensures forall i :: i in First(targets, n) ==> i in targets
    ensures n == |targets| ==> forall i :: i in targets ==> i in First(targets, n)
  {
    assert n == |targets| ==> targets[..n] == targets;
  }

  lemma FirstByIndex(targets: seq<nat>, n: nat)
    requires n <= |targets|
    ensures forall i :: i in First(targets, n) <==> exists k :: 0 <= k < n && targets[k] == i
  {
    assert forall k :: 0 <= k < n ==> targets[..n][k] == targets[k];
  }

  lemma RejectedByIndex(e: Exit)
    requires e.attempted <= |e.targets| && !e.end.Refused? && !e.end.Saved?
    ensures RejectedUndoes(e) != {} <==> exists k :: 0 <= k < e.attempted && !e.answers.undo(e.targets[k]).ok
  {
    FirstByIndex(e.targets, e.attempted);
    if RejectedUndoes(e) != {} {
      var i :| i in RejectedUndoes(e);
    }
    if k :| 0 <= k < e.attempted && !e.answers.undo(e.targets[k]).ok {
      assert e.targets[k] in RejectedUndoes(e);
    }
  }

  // ----- replies

  /** The reply by what failed: a renewal or a change, some undoing call after that, or the transaction. */
  ghost predicate Replies(e: Exit, reply: Reply)
    requires e.attempted <= |e.targets|
  {
    match reply
    case Updated => !SomeFails(e) && e.answers.transaction.Commits?
    case NotSaved => !SomeFails(e) && !e.answers.transaction.Commits?
    case NeedsReconciliation => SomeFails(e) && SomeUnsettled(e)
    case LimitsRejected => SomeFails(e) && !SomeUnsettled(e)
    case Rejected(_) => false
  }

  ghost predicate SomeFails(e: Exit) {
    exists k :: 0 <= k < |e.targets| && !(e.answers.renews(k) && e.answers.change(e.targets[k]).ok)
  }

  ghost predicate SomeUnsettled(e: Exit)
    requires e.attempted <= |e.targets|
  {
    exists k :: 0 <= k < e.attempted && !e.answers.undo(e.targets[k]).ok
  }

  /**
   What a caller may conclude. Updated: the plan is stored, and every key that was called for has its limit. Limits
   rejected: some renewal or change failed, but the rows are the old ones and every key called for agrees with them.
   Reconciliation: one failed, and so did an undoing call. Not saved: none failed, but the transaction did.
   */
  lemma ReplyTells(a: State, b: State, e: Exit, reply: Reply)
    requires Exits(a, b, e) && !e.end.Refused? && Replies(e, reply)
    ensures Managed(b.rows, b.provider)
    ensures reply.Updated? ==> b.rows == CommitRows(a.rows, e.next, Targets(a.rows, e.next.policy.monthly))
    ensures reply.Updated? || reply.LimitsRejected? ==>
              && Disagree(b) <= Disagree(a)
              && forall k :: 0 <= k < e.attempted ==> e.targets[k] !in Disagree(b)
    ensures reply.LimitsRejected? ==> b.rows == a.rows
    ensures reply.LimitsRejected? || reply.NeedsReconciliation? <==>
              exists k :: 0 <= k < |e.targets| && !(e.answers.renews(k) && e.answers.change(e.targets[k]).ok)
    ensures reply.NeedsReconciliation? <==>
              && (exists k :: 0 <= k < |e.targets| && !(e.answers.renews(k) && e.answers.change(e.targets[k]).ok))
              && (exists k :: 0 <= k < e.attempted && !e.answers.undo(e.targets[k]).ok)
    ensures reply.NotSaved? ==>
              if e.answers.transaction.Aborts? then OnlyMarked(b.rows, a.rows)
              else e.answers.transaction.Loses?
                   && OnlyMarked(b.rows, CommitRows(a.rows, e.next, Targets(a.rows, e.next.policy.monthly)))
  {
    AllMadeExactly(e.targets, e.attempted, e.called, e.answers);
    ExitSettles(a, b, e);
    FirstByIndex(e.targets, e.attempted);
    if reply.LimitsRejected? {
      RejectedByIndex(e);
    }
  }

  /**
   What an update leaves at the provider for one key. A key that was not attempted keeps its limit. After a saved
   update every key whose limit changes has the new one, and after any other every attempted key whose undoing
   call was accepted has the stored one again.
   */
  lemma ProviderAfter(a: State, b: State, e: Exit, i: nat)
    requires Exits(a, b, e) && i < |a.rows.all| && a.rows.all[i].key.Some?
    ensures var key, stored, limit := a.rows.all[i].key.value, a.rows.all[i].policy.monthly, e.next.policy.monthly;
            && key in a.provider && key in b.provider
            && ((forall k :: 0 <= k < e.attempted ==> e.targets[k] != i) ==> b.provider[key] == a.provider[key])
            && (e.end == Saved && stored != limit ==> b.provider[key] == limit)
            && (e.end != Saved && e.end != End.Refused ==>
                  forall k :: 0 <= k < e.attempted && e.targets[k] == i && e.answers.undo(i).ok ==>
                    b.provider[key] == stored)
  {
    FirstByIndex(e.targets, e.attempted);
    FirstMembers(e.targets, e.called);
    CalledAreAttempted(e, i);
    assert Linked(a.rows, i);
    assert b.provider[Key(a.rows, i)]
        == LimitAfter(a.provider[Key(a.rows, i)], i, e.next.policy.monthly, Limit(a.rows, i),
                      First(e.targets, e.called), Undone(e), e.answers);
    assert !e.end.Refused? ==> (i in e.targets <==> Limit(a.rows, i) != e.next.policy.monthly);
  }

  /** The attempts end with the first target whose renewal or change fails; without one all are made. */
  lemma StopsAtFirstFailure(a: State, b: State, e: Exit, k: nat)
    requires Exits(a, b, e) && !e.end.Refused? && k <= |e.targets|
    requires forall j :: 0 <= j < k ==> e.answers.renews(j) && e.answers.change(e.targets[j]).ok
    requires k < |e.targets| ==> !(e.answers.renews(k) && e.answers.change(e.targets[k]).ok)
    ensures if k == |e.targets| then e.called == e.attempted == k
            else e.attempted == k + 1 && e.called == if e.answers.renews(k) then k + 1 else k
  {
  }

  // ----- what an exit does to agreement

  lemma SameKeysManaged(rows: Rows, other: Rows, a: map<nat, int>, b: map<nat, int>)
    requires Managed(rows, a) && b.Keys == a.Keys && |other.all| == |rows.all|
    requires forall i :: 0 <= i < |rows.all| ==> other.all[i].key == rows.all[i].key
    ensures Managed(other, b)
  {
  }

  /** An exit leaves the keys it did not attempt as they were, and of the others only the unsettled ones apart. */
  lemma ExitSettles(a: State, b: State, e: Exit)
    requires Exits(a, b, e)
    ensures Managed(b.rows, b.provider) && e.attempted <= |e.targets|
    ensures forall i :: i in Disagree(a) && i !in Attempted(e) ==> i in Disagree(b)
    ensures forall i :: i in Disagree(b) ==> (i in Disagree(a) && i !in Attempted(e)) || i in Unsettled(e)
    ensures e.end.LostCommit? ==> forall i :: i in Attempted(e) && i !in RejectedUndoes(e) ==> i in Disagree(b)
  {
    FirstMembers(e.targets, e.attempted);
    FirstMembers(e.targets, e.called);
    KeptKeys(a, b, e);
    SameKeysManaged(a.rows, b.rows, a.provider, b.provider);
    forall i: nat | i < |a.rows.all| && Linked(a.rows, i)
      ensures i !in Attempted(e) ==> (i in Disagree(b) <==> i in Disagree(a))
      ensures i in Attempted(e) && i in Disagree(b) ==> i in Unsettled(e)
      ensures i in Attempted(e) && e.end.LostCommit? && i !in RejectedUndoes(e) ==> i in Disagree(b)
    {
      KeySettles(a, b, e, i);
    }
  }

  /** An exit keeps every key, and changes stored limits only by committing the plan. */
  lemma KeptKeys(a: State, b: State, e: Exit)
    requires Exits(a, b, e)
    ensures |b.rows.all| == |a.rows.all|
    ensures forall i :: 0 <= i < |a.rows.all| ==>
              && b.rows.all[i].key == a.rows.all[i].key
              && b.rows.all[i].policy.monthly == if e.end.Saved? || e.end.LostCommit? then e.next.policy.monthly
                                                 else a.rows.all[i].policy.monthly
  {
  }

  lemma KeySettles(a: State, b: State, e: Exit, i: nat)
    requires Exits(a, b, e) && Managed(b.rows, b.provider) && Linked(a.rows, i) && |b.rows.all| == |a.rows.all|
    requires b.rows.all[i].key == a.rows.all[i].key
    requires b.rows.all[i].policy.monthly == if e.end.Saved? || e.end.LostCommit? then e.next.policy.monthly
                                             else a.rows.all[i].policy.monthly
    requires forall j :: j in First(e.targets, e.called) ==> j in e.targets
    requires forall j :: j in Attempted(e) ==> j in e.targets
    requires AllMade(e.targets, e.attempted, e.called, e.answers) ==>
               forall j :: j in e.targets ==> j in Attempted(e) && j in First(e.targets, e.called)
    ensures i !in Attempted(e) ==> (i in Disagree(b) <==> i in Disagree(a))
    ensures i in Attempted(e) && i in Disagree(b) ==> i in Unsettled(e)
    ensures i in Attempted(e) && e.end.LostCommit? && i !in RejectedUndoes(e) ==> i in Disagree(b)
  {
    CalledAreAttempted(e, i);
    var limit := e.next.policy.monthly;
    assert b.provider[Key(a.rows, i)]
        == LimitAfter(a.provider[Key(a.rows, i)], i, limit, Limit(a.rows, i), First(e.targets, e.called), Undone(e),
                      e.answers);
    assert !e.end.Refused? ==> (i in e.targets <==> Limit(a.rows, i) != limit);
  }

  lemma CalledAreAttempted(e: Exit, i: nat)
    requires e.called <= e.attempted <= |e.targets|
    ensures i in First(e.targets, e.called) ==> i in Attempted(e)
  {
    assert e.targets[..e.called] <= e.targets[..e.attempted];
  }

  /** Without a lost commit, a key that agreed and whose undoing was rejected has the old limit or the new one. */
  lemma UnsettledHoldOldOrNew(a: State, b: State, e: Exit, i: nat)
    requires Exits(a, b, e) && Linked(a.rows, i) && i !in Disagree(a)
    ensures Key(a.rows, i) in b.provider && b.provider[Key(a.rows, i)] in {Limit(a.rows, i), e.next.policy.monthly}
  {
  }

  // ----- whole runs

  ghost predicate Run(states: seq<State>, exits: seq<Exit>) {
    |states| == |exits| + 1 && forall k :: 0 <= k < |exits| ==> Exits(states[k], states[k + 1], exits[k])
  }

  ghost predicate Touches(e: Exit, i: nat) {
    e.attempted <= |e.targets| && i in Attempted(e)
  }

  ghost predicate Unsettles(e: Exit, i: nat) {
    e.attempted <= |e.targets| && i in Unsettled(e)
  }

  /** The update numbered `k` may have left key `i` apart, and no later one called the provider for it. */
  ghost predicate BlamedOn(exits: seq<Exit>, i: nat, k: nat)
    requires k < |exits|
  {
    Unsettles(exits[k], i) && forall j :: k < j < |exits| ==> !Touches(exits[j], i)
  }

  ghost predicate NeverTouched(exits: seq<Exit>, i: nat) {
    forall k :: 0 <= k < |exits| ==> !Touches(exits[k], i)
  }

  /** Key `i` disagrees after the updates only if one of them is to blame, or it did from the start. */
  ghost predicate Blamed(first: State, last: State, exits: seq<Exit>, i: nat)
    requires Managed(first.rows, first.provider) && Managed(last.rows, last.provider)
  {
    && (i in Disagree(last) ==>
          (i in Disagree(first) && NeverTouched(exits, i)) || exists k :: 0 <= k < |exits| && BlamedOn(exits, i, k))
    && (i in Disagree(first) && NeverTouched(exits, i) ==> i in Disagree(last))
  }

  /**
   Over any sequence of updates a key disagrees only by a lost commit or a rejected undoing call in its last
   update, or from the start.
   */
  lemma {:induction false} DisagreementIsBlamed(states: seq<State>, exits: seq<Exit>, i: nat)
    requires Run(states, exits) && Managed(states[0].rows, states[0].provider)
    ensures Managed(states[|exits|].rows, states[|exits|].provider)
    ensures Blamed(states[0], states[|exits|], exits, i)
    decreases |exits|
  {
    if exits != [] {
      var n := |exits| - 1;
      DisagreementIsBlamed(states[..n + 1], exits[..n], i);
      assert Exits(states[n], states[n + 1], exits[n]);
      ExitSettles(states[n], states[n + 1], exits[n]);
      BlameGrows(states[0], states[n], states[n + 1], exits, i);
    }
  }

  lemma BlameGrows(first: State, before: State, last: State, exits: seq<Exit>, i: nat)
    requires exits != [] && Managed(first.rows, first.provider) && Managed(before.rows, before.provider)
    requires Managed(last.rows, last.provider) && Blamed(first, before, exits[..|exits| - 1], i)
    requires i in Disagree(before) && !Touches(exits[|exits| - 1], i) ==> i in Disagree(last)
    requires i in Disagree(last) ==>
               (i in Disagree(before) && !Touches(exits[|exits| - 1], i)) || Unsettles(exits[|exits| - 1], i)
    ensures Blamed(first, last, exits, i)
  {
    var n := |exits| - 1;
    var init := exits[..n];
    if Unsettles(exits[n], i) {
      assert BlamedOn(exits, i, n);
    } else if i in Disagree(last) && !(i in Disagree(first) && NeverTouched(init, i)) {
      var k :| 0 <= k < n && BlamedOn(init, i, k);
      assert forall j :: k < j < n ==> init[j] == exits[j];
      assert BlamedOn(exits, i, k);
    }
    assert forall k :: 0 <= k < n ==> init[k] == exits[k];
  }

  /** Agreement survives any sequence of updates in which no undoing call is rejected and no commit is lost. */
  lemma AgreementSurvives(states: seq<State>, exits: seq<Exit>)
    requires Run(states, exits) && Managed(states[0].rows, states[0].provider) && Disagree(states[0]) == {}
    requires forall k :: 0 <= k < |exits| ==> Settled(exits[k])
    ensures Managed(states[|exits|].rows, states[|exits|].provider)
    ensures Disagree(states[|exits|]) == {}
  {
    DisagreementIsBlamed(states, exits, 0);
    forall i | i in Disagree(states[|exits|]) ensures false {
      DisagreementIsBlamed(states, exits, i);
    }
  }

  /** Every call that undoes is accepted, and no commit is lost. */
  ghost predicate Settled(e: Exit) {
    !e.end.LostCommit? && forall i :: !Unsettles(e, i)
  }

  // ----- the route

  ghost predicate HasUnlinked(rows: Rows, limit: int) {
    exists t :: t in Targets(rows, limit) && !Linked(rows, t)
  }

  /** Without a validator, every model that needs one is unavailable. */
  function PlanOf(rows: Rows, patch: Patch, platformDefault: string, lookups: string -> Lookup, validator: bool): Plan
    requires rows.all != []
  {
    Resolve(AsWorkspace(rows).master, patch, platformDefault, if validator then lookups else _ => Unavailable)
  }

  class ManagedWorkspace {
    var rows: Rows
    var provider: map<nat, int>
    /** The number of calls made to the provider. */
    var calls: nat

    constructor (rows: Rows, provider: map<nat, int>)
      requires Managed(rows, provider)
      ensures this.rows == rows && this.provider == provider && calls == 0
    {
      this.rows, this.provider, calls := rows, provider, 0;
    }

    ghost function Now(): State
      reads this
    {
      State(rows, provider)
    }

    /** One provider call; a rejected one may have taken effect. */
    method UpdateOpenRouterLimit(key: nat, limit: int, answer: Answer) returns (ok: bool)
      modifies this`provider, this`calls
      ensures provider == if Took(answer) then old(provider)[key := limit] else old(provider)
      ensures ok == answer.ok && calls == old(calls) + 1
    {
      if Took(answer) {
        provider := provider[key := limit];
      }
      calls := calls + 1;
      ok := answer.ok;
    }

    /** Changes the limits one by one until a renewal or a call fails; the attempts include the failing one. */
    method ApplyLimits(targets: seq<nat>, limit: int, f: Answers) returns (ok: bool, attempted: nat, ghost called: nat)
      requires Managed(rows, provider) && AreTargets(rows, limit, targets)
      modifies this`provider, this`calls
      ensures Managed(rows, provider)
      ensures Attempts(targets, attempted, called, f) && (ok <==> AllMade(targets, attempted, called, f))
      ensures calls == old(calls) + called
      ensures Called(rows, old(provider), provider, limit, First(targets, called), {}, f)
    {
      attempted, called := 0, 0;
      for k := 0 to |targets|
        invariant Managed(rows, provider) && attempted == called == k && calls == old(calls) + k
        invariant Called(rows, old(provider), provider, limit, First(targets, k), {}, f)
        invariant forall j :: 0 <= j < k ==> f.renews(j) && f.change(targets[j]).ok
      {
        attempted := k + 1;
        if !f.renews(k) {
          return false, attempted, called;
        }
        ok := ChangeLimit(targets, k, limit, f, old(provider));
        called := k + 1;
        if !ok {
          return false, attempted, called;
        }
      }
      ok := true;
    }

    /** The call for the next target. */
    method ChangeLimit(targets: seq<nat>, k: nat, limit: int, f: Answers, ghost start: map<nat, int>) returns (ok: bool)
      requires Managed(rows, start) && AreTargets(rows, limit, targets) && k < |targets|
      requires Called(rows, start, provider, limit, First(targets, k), {}, f)
      modifies this`provider, this`calls
      ensures Managed(rows, provider) && Called(rows, start, provider, limit, First(targets, k + 1), {}, f)
      ensures ok == f.change(targets[k]).ok && calls == old(calls) + 1
    {
      assert targets[k] in targets;
      ok := UpdateOpenRouterLimit(Key(rows, targets[k]), limit, f.change(targets[k]));
      OneMore(rows, start, old(provider), provider, limit, targets, k, f);
    }

    /** The undoing calls for the rows read before, all started together and finishing in any order. */
    method RollBack(read: Rows, attempted: set<nat>, limit: int, f: Answers, ghost start: map<nat, int>,
                    ghost called: set<nat>)
      returns (rejected: bool)
      requires Managed(read, start) && Managed(read, provider) && Called(read, start, provider, limit, called, {}, f)
      requires forall i :: i in attempted ==> Linked(read, i)
      modifies this`provider, this`calls
      ensures Called(read, start, provider, limit, called, attempted, f) && calls == old(calls) + |attempted|
      ensures rejected <==> exists i :: i in attempted && !f.undo(i).ok
    {
      rejected := false;
      var left := attempted;
      while left != {}
        invariant left <= attempted && Managed(read, provider)
        invariant calls + |left| == old(calls) + |attempted|
        invariant Called(read, start, provider, limit, called, attempted - left, f)
        invariant rejected <==> exists i :: i in attempted && i !in left && !f.undo(i).ok
        decreases left
      {
        var i :| i in left;
        ghost var before, done := provider, attempted - left;
        left := left - {i};
        var ok := UpdateOpenRouterLimit(Key(read, i), Limit(read, i), f.undo(i));
        OneUndone(read, start, before, provider, limit, called, done, i, f);
        assert attempted - left == done + {i};
        rejected := rejected || !ok;
      }
      assert attempted - left == attempted;
    }

    /** Best effort: the rows keep everything else. */
    method MarkModelPolicyProviderError()
      modifies this`rows
      ensures OnlyMarked(rows, old(rows))
    {
      var recorded: bool := *;
      if recorded {
        var all := rows.all;
        rows := rows.(all := seq(|all|, i requires 0 <= i < |all| => all[i].(syncError := true)));
      }
    }

    /** The credentials whose stored limit is not the new one, the master first. */
    method LimitTargets(limit: int) returns (targets: seq<nat>)
      ensures forall i :: i in targets <==> i in Targets(rows, limit)
      ensures forall j, k :: 0 <= j < k < |targets| ==> targets[j] != targets[k]
    {
      targets := [];
      for i := 0 to |rows.all|
        invariant forall t :: t in targets <==> 0 <= t < i && t in Targets(rows, limit)
        invariant forall j, k :: 0 <= j < k < |targets| ==> targets[j] != targets[k]
      {
        if rows.all[i].policy.monthly != limit {
          assert i !in targets;
          targets := targets + [i];
        }
      }
    }

    /** Undoes the attempted calls, and records on the rows that some of that was rejected. */
    method Compensate(read: Rows, attempted: set<nat>, limit: int, f: Answers, ghost start: map<nat, int>,
                      ghost called: set<nat>)
      returns (rejected: bool)
      requires Managed(read, start) && Managed(read, provider) && Called(read, start, provider, limit, called, {}, f)
      requires forall i :: i in attempted ==> Linked(read, i)
      modifies this
      ensures Called(read, start, provider, limit, called, attempted, f) && calls == old(calls) + |attempted|
      ensures rejected <==> exists i :: i in attempted && !f.undo(i).ok
      ensures OnlyMarked(rows, old(rows)) && (!rejected ==> rows == old(rows))
    {
      rejected := RollBack(read, attempted, limit, f, start, called);
      if rejected {
        MarkModelPolicyProviderError();
      }
    }

    /** The same for the first `attempted` targets. */
    method UndoAttempts(read: Rows, targets: seq<nat>, attempted: nat, limit: int, f: Answers,
                        ghost start: map<nat, int>, ghost called: set<nat>)
      returns (rejected: bool)
      requires Managed(read, start) && Managed(read, provider) && Called(read, start, provider, limit, called, {}, f)
      requires AreTargets(read, limit, targets) && attempted <= |targets|
      modifies this
      ensures Called(read, start, provider, limit, called, First(targets, attempted), f)
      ensures calls == old(calls) + attempted
      ensures rejected <==> exists k :: 0 <= k < attempted && !f.undo(targets[k]).ok
      ensures OnlyMarked(rows, old(rows)) && (!rejected ==> rows == old(rows))
    {
      FirstMembers(targets, attempted);
      FirstCount(targets, attempted);
      rejected := Compensate(read, First(targets, attempted), limit, f, start, called);
      FirstByIndex(targets, attempted);
    }

    /**
     `POST /internal/workspaces/:id/model-policy`: the calls it makes, what they and its transaction do, and its
     reply are those of `exit`; a refused update makes none.
     */
    method UpdateModelPolicy(patch: Patch, platformDefault: string, lookups: string -> Lookup, f: Answers)
      returns (reply: Reply, ghost exit: Exit)
      requires Managed(rows, provider)
      modifies this
      ensures Exits(old(Now()), Now(), exit) && calls == old(calls) + Calls(exit)
      ensures var plan := PlanOf(old(rows), patch, platformDefault, lookups, f.validator);
              && (exit.end.Refused? <==>
                  || !f.free || plan.Refused?
                  || (exists t :: t in Targets(old(rows), plan.next.policy.monthly) && !Linked(old(rows), t))
                  || (Targets(old(rows), plan.next.policy.monthly) != {} && !f.updater))
              && (if exit.end.Refused? then reply.Rejected?
                  else
                    && exit.next == plan.next && exit.answers == f
                    && (reply.Updated? ==> AsWorkspace(rows) == CommitPlan(AsWorkspace(old(rows)), plan.next)))
      ensures exit.end.Refused? ==>
                var plan := PlanOf(old(rows), patch, platformDefault, lookups, f.validator);
                reply == Rejected(if !f.free then 409 else if plan.Refused? then plan.status
                                  else if HasUnlinked(old(rows), plan.next.policy.monthly) then 409 else 503)
      ensures !exit.end.Refused? ==> Replies(exit, reply)
    {
      exit := Exit(AsWorkspace(rows).master, [], 0, 0, End.Refused, f);
      if !f.free {
        return Rejected(409), exit;
      }
      var plan := PlanOf(rows, patch, platformDefault, lookups, f.validator);
      if plan.Refused? {
        return Rejected(plan.status), exit;
      }
      var status, targets := TargetsOf(plan.next, f.updater);
      if status.Some? {
        return Rejected(status.value), exit;
      }
      CommitRowsIsCommitPlan(rows, plan.next, Targets(rows, plan.next.policy.monthly));
      reply, exit := ChangeEverywhere(plan.next, targets, f);
    }

    /** The credentials to change, unless one of them is unlinked or there is no way to change limits. */
    method TargetsOf(next: Master, updater: bool) returns (status: Option<nat>, targets: seq<nat>)
      requires rows.all != []
      ensures status.Some? <==>
                HasUnlinked(rows, next.policy.monthly) || (Targets(rows, next.policy.monthly) != {} && !updater)
      ensures status.None? ==> AreTargets(rows, next.policy.monthly, targets)
      ensures status.Some? ==>
                status.value == if HasUnlinked(rows, next.policy.monthly) then 409 else 503
    {
      targets := LimitTargets(next.policy.monthly);
      if exists t :: t in targets && !Linked(rows, t) {
        return Some(409), targets;
      }
      assert targets != [] ==> targets[0] in Targets(rows, next.policy.monthly);
      status := if targets != [] && !updater then Some(503) else None;
    }

    /** First the provider, then the database, and back again when either fails. */
    method ChangeEverywhere(next: Master, targets: seq<nat>, f: Answers) returns (reply: Reply, ghost exit: Exit)
      requires Managed(rows, provider) && AreTargets(rows, next.policy.monthly, targets)
      modifies this
      ensures Exits(old(Now()), Now(), exit) && calls == old(calls) + Calls(exit)
      ensures !exit.end.Refused? && exit.next == next && exit.answers == f && !reply.Rejected?
      ensures Replies(exit, reply)
    {
      var read, limit := rows, next.policy.monthly;
      var applied, attempted, called := ApplyLimits(targets, limit, f);
      AllMadeExactly(targets, attempted, called, f);
      var end := if !applied then LimitsFailed else EndOf(f.transaction);
      exit := Exit(next, targets, attempted, called, end, f);
      if end.Saved? || end.LostCommit? {
        rows := CommitRows(rows, next, Targets(rows, limit));
      }
      if end.Saved? {
        return Updated, exit;
      }
      var rejected := UndoAttempts(read, targets, attempted, limit, f, old(provider), First(targets, called));
      RejectedByIndex(exit);
      reply := if applied then NotSaved else if rejected then NeedsReconciliation else LimitsRejected;
    }
  }

  lemma OneMore(rows: Rows, start: map<nat, int>, before: map<nat, int>, after: map<nat, int>, limit: int,
                targets: seq<nat>, k: nat, f: Answers)
    requires Managed(rows, start) && k < |targets| && Linked(rows, targets[k])
    requires Called(rows, start, before, limit, First(targets, k), {}, f)
    requires after == if Took(f.change(targets[k])) then before[Key(rows, targets[k]) := limit] else before
    ensures Called(rows, start, after, limit, First(targets, k + 1), {}, f) && Managed(rows, after)
  {
    assert targets[..k + 1] == targets[..k] + [targets[k]];
    assert First(targets, k + 1) == First(targets, k) + {targets[k]};
  }

  lemma OneUndone(rows: Rows, start: map<nat, int>, before: map<nat, int>, after: map<nat, int>, limit: int,
                  called: set<nat>, done: set<nat>, i: nat, f: Answers)
    requires Managed(rows, start) && Linked(rows, i) && i !in done
    requires Called(rows, start, before, limit, called, done, f)
    requires after == if Took(f.undo(i)) then before[Key(rows, i) := Limit(rows, i)] else before
    ensures Called(rows, start, after, limit, called, done + {i}, f) && Managed(rows, after)
  {
  }

  lemma {:induction false} FirstCount(targets: seq<nat>, n: nat)
    requires n <= |targets| && forall j, k :: 0 <= j < k < |targets| ==> targets[j] != targets[k]
    ensures |First(targets, n)| == n
    decreases n
  {
    if n > 0 {
      FirstCount(targets, n - 1);
      assert targets[..n] == targets[..n - 1] + [targets[n - 1]];
      assert First(targets, n) == First(targets, n - 1) + {targets[n - 1]};
    }
  }
}
