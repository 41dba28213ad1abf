/**
 Sending a message to a thread (apps/api/src/thread-target.ts) and the group follow-up
 (apps/api/src/router.ts): messages, the batch of runs each creates, and the queued runs it
 supersedes. Rows are numbered in commit order; a write is one committed transaction.
 */
module ThreadSends {
  import opened Options
  import opened Logs

  datatype Status = Queued | Leased | Running | WaitingInput | WaitingTakeover | Completed | Failed | Cancelled

  datatype Message = Message(thread: nat, nonce: Option<string>, seqNo: nat)

  /** The creation time and row id by which the database orders a batch. */
  datatype Stamp = Stamp(createdAt: int, rowId: int)

  datatype Run = Run(thread: nat, bot: nat, status: Status, task: nat, source: nat, stamp: Stamp)

  datatype Store = Store(messages: seq<Message>, runs: seq<Run>, tasks: seq<Status>, nextSeq: map<nat, nat>)

  const MAX_TRANSACTION_ATTEMPTS := 3

  function NextSeq(s: Store, thread: nat): nat {
    if thread in s.nextSeq then s.nextSeq[thread] else 0
  }

  function AddMessage(s: Store, thread: nat, nonce: Option<string>): Store {
    var n := NextSeq(s, thread);
    s.(messages := s.messages + [Message(thread, nonce, n)], nextSeq := s.nextSeq[thread := n + 1])
  }

  predicate NonceTaken(s: Store, thread: nat, nonce: Option<string>) {
    nonce.Some? && exists m :: m in s.messages && m.thread == thread && m.nonce == nonce
  }

  // ----- the send transaction

  predicate Superseded(r: Run, thread: nat, bots: seq<nat>) {
    r.thread == thread && r.bot in bots && r.status.Queued?
  }

  predicate SupersededTask(s: Store, thread: nat, bots: seq<nat>, task: nat) {
    exists r :: r in s.runs && Superseded(r, thread, bots) && r.task == task
  }

  function CancelRun(r: Run): Run {
    r.(status := Cancelled)
  }

  /** The store after a send: one message, one queued run and task per bot, older queued ones cancelled. */
  function SendEffect(s: Store, thread: nat, nonce: Option<string>, bots: seq<nat>, stamps: seq<Stamp>): Store
    requires |stamps| == |bots|
  {
    var added := AddMessage(s, thread, nonce);
    added.(
    runs := seq(|s.runs|, i requires 0 <= i < |s.runs| =>
                  if Superseded(s.runs[i], thread, bots) then CancelRun(s.runs[i]) else s.runs[i])
            + seq(|bots|, k requires 0 <= k < |bots| =>
                    Run(thread, bots[k], Queued, |s.tasks| + k, |s.messages|, stamps[k])),
    tasks := seq(|s.tasks|, t requires 0 <= t < |s.tasks| =>
                   if SupersededTask(s, thread, bots, t) then Cancelled else s.tasks[t])
             + seq(|bots|, _ => Queued))
  }

  // ----- the follow-up transaction

  predicate Busy(r: Run, thread: nat) {
    r.thread == thread && (r.status.Running? || r.status.Queued? || r.status.Leased?)
  }

  function FollowUpEffect(s: Store, thread: nat, bot: nat, stamp: Stamp): Store {
    var added := AddMessage(s, thread, None);
    if exists r :: r in s.runs && Busy(r, thread) then added
    else added.(runs := s.runs + [Run(thread, bot, Queued, |s.tasks|, |s.messages|, stamp)],
                tasks := s.tasks + [Queued])
  }

  // ----- the executor

  predicate CanTransition(from: Status, to: Status) {
    match from
    case Queued => to.Leased? || to.Cancelled?
    case Leased => to.Running? || to.Queued? || to.Cancelled?
    case Running =>
      to.WaitingInput? || to.WaitingTakeover? || to.Completed? || to.Failed? || to.Cancelled? || to.Leased?
    case WaitingInput => to.Queued? || to.Leased? || to.Cancelled?
    case WaitingTakeover => to.Queued? || to.Leased? || to.Cancelled?
    case Completed => false
    case Failed => to.Queued?
    case Cancelled => false
  }

  /** Completed and cancelled runs are final, a failed one can only be queued again, and any other can be cancelled. */
  lemma FinalStatuses(from: Status, to: Status)
    ensures from == Completed || from == Cancelled ==> !CanTransition(from, to)
    ensures from == Failed ==> (CanTransition(from, to) <==> to == Queued)
    ensures from in {Queued, Leased, Running, WaitingInput, WaitingTakeover} ==> CanTransition(from, Cancelled)
    ensures CanTransition(from, Completed) || CanTransition(from, Failed) ==> from == Running
  {
  }

  function ExecutorEffect(s: Store, run: nat, to: Status, taskTo: Status): Store
    requires run < |s.runs| && s.runs[run].task < |s.tasks|
  {
    s.(runs := s.runs[run := s.runs[run].(status := to)], tasks := s.tasks[s.runs[run].task := taskTo])
  }

  datatype Write =
    | Send(thread: nat, nonce: Option<string>, bots: seq<nat>, stamps: seq<Stamp>)
    | FollowUp(groupThread: nat, firstBot: nat, stamp: Stamp)
    | Executor(run: nat, to: Status, taskTo: Status)

  predicate Legal(s: Store, w: Write) {
    match w
    case Send(thread, nonce, bots, stamps) =>
      |bots| == |stamps| > 0 && DistinctBots(bots) && !NonceTaken(s, thread, nonce)
    case FollowUp(_, _, _) => true
    case Executor(run, to, _) =>
      run < |s.runs| && s.runs[run].task < |s.tasks| && CanTransition(s.runs[run].status, to)
  }

  predicate DistinctBots(bots: seq<nat>) {
    forall i, j :: 0 <= i < j < |bots| ==> bots[i] != bots[j]
  }

  function Apply(s: Store, w: Write): Store
    requires Legal(s, w)
  {
    match w
    case Send(thread, nonce, bots, stamps) => SendEffect(s, thread, nonce, bots, stamps)
    case FollowUp(thread, bot, stamp) => FollowUpEffect(s, thread, bot, stamp)
    case Executor(run, to, taskTo) => ExecutorEffect(s, run, to, taskTo)
  }

  // ----- exactly once

  ghost predicate Keyed(s: Store) {
    && (forall i, j :: 0 <= i < j < |s.messages| && s.messages[i].thread == s.messages[j].thread ==>
          && s.messages[i].seqNo < s.messages[j].seqNo
          && (s.messages[i].nonce.Some? ==> s.messages[i].nonce != s.messages[j].nonce))
    && (forall i :: 0 <= i < |s.messages| ==> s.messages[i].seqNo < NextSeq(s, s.messages[i].thread))
  }

  ghost predicate Linked(s: Store) {
    && (forall i :: 0 <= i < |s.runs| ==> s.runs[i].task < |s.tasks| && s.runs[i].source < |s.messages|)
    && (forall i, j :: 0 <= i < j < |s.runs| ==>
          s.runs[i].task != s.runs[j].task && s.runs[i].source <= s.runs[j].source)
    && (forall i :: 0 <= i < |s.runs| ==> s.messages[s.runs[i].source].thread == s.runs[i].thread)
  }

  /** The runs that a message created. */
  function Batch(s: Store, message: nat): set<nat> {
    set i | 0 <= i < |s.runs| && s.runs[i].source == message
  }

  ghost predicate SameRow(a: Run, b: Run) {
    a.(status := b.status) == b
  }

  /** Later stores keep every message, its whole batch, and each run's identity. */
  ghost predicate Extends(a: Store, b: Store) {
    && a.messages <= b.messages
    && |a.runs| <= |b.runs|
    && (forall i :: 0 <= i < |a.runs| ==> SameRow(a.runs[i], b.runs[i]))
    && (forall i :: |a.runs| <= i < |b.runs| ==> b.runs[i].source >= |a.messages|)
  }

  lemma ExtendsTransitive(a: Store, b: Store, c: Store)
    requires Extends(a, b) && Extends(b, c)
    ensures Extends(a, c)
  {
  }

  lemma ApplyExtends(s: Store, w: Write)
    requires Legal(s, w)
    ensures Extends(s, Apply(s, w))
  {
  }

  lemma ApplyKeyed(s: Store, w: Write)
    requires Legal(s, w) && Keyed(s)
    ensures Keyed(Apply(s, w))
  {
  }

  lemma SendLinked(s: Store, thread: nat, nonce: Option<string>, bots: seq<nat>, stamps: seq<Stamp>)
    requires |stamps| == |bots| && Linked(s)
    ensures Linked(SendEffect(s, thread, nonce, bots, stamps))
  {
    var after := SendEffect(s, thread, nonce, bots, stamps);
    assert forall i :: 0 <= i < |s.runs| ==> SameRow(s.runs[i], after.runs[i]);
    assert forall i :: |s.runs| <= i < |after.runs| ==>
             && after.runs[i].task == |s.tasks| + i - |s.runs| && after.runs[i].source == |s.messages|
             && after.runs[i].thread == thread;
  }

  lemma FollowUpLinked(s: Store, thread: nat, bot: nat, stamp: Stamp)
    requires Linked(s)
    ensures Linked(FollowUpEffect(s, thread, bot, stamp))
  {
  }

  lemma ApplyLinked(s: Store, w: Write)
    requires Legal(s, w) && Linked(s)
    ensures Linked(Apply(s, w))
  {
    match w
    case Send(thread, nonce, bots, stamps) => SendLinked(s, thread, nonce, bots, stamps);
    case FollowUp(thread, bot, stamp) => FollowUpLinked(s, thread, bot, stamp);
    case Executor(run, to, taskTo) => assert Apply(s, w).messages == s.messages;
  }

  lemma BatchStable(a: Store, b: Store, message: nat)
    requires Extends(a, b) && message < |a.messages|
    ensures Batch(b, message) == Batch(a, message)
  {
    assert forall i :: 0 <= i < |a.runs| ==> a.runs[i].source == b.runs[i].source;
  }

  // ----- superseding

  /** A queued run is the newest of its bot in its thread, so there is at most one. */
  ghost predicate OnlyNewestQueued(s: Store) {
    forall i, j :: 0 <= i < j < |s.runs| && s.runs[i].thread == s.runs[j].thread && s.runs[i].bot == s.runs[j].bot
      ==> !s.runs[i].status.Queued?
  }

  predicate Newest(s: Store, run: nat)
    requires run < |s.runs|
  {
    forall j :: run < j < |s.runs| ==> s.runs[j].thread != s.runs[run].thread || s.runs[j].bot != s.runs[run].bot
  }

  /**
   After a send the queued runs of its bots in its thread are exactly the new ones, one per bot and in the bots'
   order; the older queued ones and their tasks are cancelled, and nothing else is touched.
   */
  lemma SendSupersedes(s: Store, thread: nat, nonce: Option<string>, bots: seq<nat>, stamps: seq<Stamp>)
    requires |stamps| == |bots|
    ensures var after := SendEffect(s, thread, nonce, bots, stamps);
            && (forall i :: 0 <= i < |after.runs| && after.runs[i].thread == thread && after.runs[i].bot in bots ==>
                  (after.runs[i].status.Queued? <==> i >= |s.runs|))
            && |after.runs| == |s.runs| + |bots| && |after.tasks| == |s.tasks| + |bots|
            && (forall k :: 0 <= k < |bots| ==>
                  after.runs[|s.runs| + k] == Run(thread, bots[k], Queued, |s.tasks| + k, |s.messages|, stamps[k]))
            && (forall t :: |s.tasks| <= t < |after.tasks| ==> after.tasks[t] == Queued)
            && (forall i :: 0 <= i < |s.runs| ==>
                  after.runs[i] == if s.runs[i].thread == thread && s.runs[i].bot in bots && s.runs[i].status == Queued
                                   then s.runs[i].(status := Cancelled) else s.runs[i])
            && (Linked(s) ==> forall i :: 0 <= i < |s.runs| ==>
                  after.tasks[s.runs[i].task] ==
                  if s.runs[i].thread == thread && s.runs[i].bot in bots && s.runs[i].status == Queued then Cancelled
                  else s.tasks[s.runs[i].task])
  {
    if Linked(s) {
      forall i | 0 <= i < |s.runs|
        ensures SupersededTask(s, thread, bots, s.runs[i].task) <==> Superseded(s.runs[i], thread, bots)
      {
        if SupersededTask(s, thread, bots, s.runs[i].task) {
          var r :| r in s.runs && Superseded(r, thread, bots) && r.task == s.runs[i].task;
          var j :| 0 <= j < |s.runs| && s.runs[j] == r;
        } else {
          assert s.runs[i] in s.runs;
        }
      }
    }
  }

  /** A send and a follow-up add one message each, numbered from zero in its thread; an executor adds none. */
  lemma MessagesAreNumbered(s: Store, w: Write)
    requires Legal(s, w)
    ensures var after := Apply(s, w);
            if w.Executor? then after.messages == s.messages && after.nextSeq == s.nextSeq
            else
              var thread := if w.Send? then w.thread else w.groupThread;
              var n := if thread in s.nextSeq then s.nextSeq[thread] else 0;
              && after.messages == s.messages + [Message(thread, if w.Send? then w.nonce else None, n)]
              && after.nextSeq == s.nextSeq[thread := n + 1]
  {
  }

  /** A follow-up queues a run of the first bot exactly when no run of the thread is queued, leased or running. */
  lemma FollowUpQueuesWhenIdle(s: Store, thread: nat, bot: nat, stamp: Stamp)
    ensures Legal(s, FollowUp(thread, bot, stamp))
    ensures var after := FollowUpEffect(s, thread, bot, stamp);
            if forall i :: 0 <= i < |s.runs| && s.runs[i].thread == thread ==>
                 s.runs[i].status != Queued && s.runs[i].status != Leased && s.runs[i].status != Running
            then
              && after.runs == s.runs + [Run(thread, bot, Queued, |s.tasks|, |s.messages|, stamp)]
              && after.tasks == s.tasks + [Queued]
            else after.runs == s.runs && after.tasks == s.tasks
  {
    if i :| 0 <= i < |s.runs| && Busy(s.runs[i], thread) {
      assert s.runs[i] in s.runs;
    }
  }

  lemma SendKeepsNewest(s: Store, thread: nat, nonce: Option<string>, bots: seq<nat>, stamps: seq<Stamp>)
    requires |stamps| == |bots| && DistinctBots(bots) && OnlyNewestQueued(s)
    ensures OnlyNewestQueued(SendEffect(s, thread, nonce, bots, stamps))
  {
  }

  lemma FollowUpKeepsNewest(s: Store, thread: nat, bot: nat, stamp: Stamp)
    requires OnlyNewestQueued(s)
    ensures OnlyNewestQueued(FollowUpEffect(s, thread, bot, stamp))
  {
    assert forall i :: 0 <= i < |s.runs| ==> s.runs[i] in s.runs;
  }

  /** A resumed run breaks the rule exactly when its bot has a newer run in the thread. */
  lemma ExecutorKeepsNewestExactly(s: Store, run: nat, to: Status, taskTo: Status)
    requires Legal(s, Executor(run, to, taskTo)) && OnlyNewestQueued(s)
    ensures OnlyNewestQueued(ExecutorEffect(s, run, to, taskTo)) <==> (to.Queued? ==> Newest(s, run))
  {
    var after := ExecutorEffect(s, run, to, taskTo);
    if to.Queued? && !Newest(s, run) {
      var j :| run < j < |s.runs| && s.runs[j].thread == s.runs[run].thread && s.runs[j].bot == s.runs[run].bot;
      assert after.runs[run].status.Queued? && after.runs[j] == s.runs[j];
    }
  }

  /** A superseded run and its task are never written again. */
  lemma CancelledStays(s: Store, w: Write, run: nat)
    requires Legal(s, w) && Linked(s) && run < |s.runs| && s.runs[run].status.Cancelled?
    ensures Apply(s, w).runs[run] == s.runs[run]
    ensures s.tasks[s.runs[run].task].Cancelled? ==> Apply(s, w).tasks[s.runs[run].task].Cancelled?
  {
  }

  // ----- whole histories

  ghost predicate Invariant(s: Store) {
    Keyed(s) && Linked(s)
  }

  predicate ResumesNewest(s: Store, w: Write)
    requires Legal(s, w)
  {
    w.Executor? && w.to.Queued? ==> Newest(s, w.run)
  }

  ghost predicate Runs(s: Store, writes: seq<Write>)
    decreases |writes|
  {
    writes == [] || (Legal(s, writes[0]) && Runs(Apply(s, writes[0]), writes[1..]))
  }

  ghost function Outcome(s: Store, writes: seq<Write>): Store
    requires Runs(s, writes)
    decreases |writes|
  {
    if writes == [] then s else Outcome(Apply(s, writes[0]), writes[1..])
  }

  /** No run goes back to queued behind a newer one. */
  ghost predicate AllResumeNewest(s: Store, writes: seq<Write>)
    requires Runs(s, writes)
    decreases |writes|
  {
    writes == [] || (ResumesNewest(s, writes[0]) && AllResumeNewest(Apply(s, writes[0]), writes[1..]))
  }

  /** At every instant of the history each queued run is its bot's newest in its thread. */
  ghost predicate AlwaysNewest(s: Store, writes: seq<Write>)
    requires Runs(s, writes)
    decreases |writes|
  {
    OnlyNewestQueued(s) && (writes == [] || AlwaysNewest(Apply(s, writes[0]), writes[1..]))
  }

  lemma ApplyKeepsNewestExactly(s: Store, w: Write)
    requires Legal(s, w) && OnlyNewestQueued(s)
    ensures OnlyNewestQueued(Apply(s, w)) <==> ResumesNewest(s, w)
  {
    match w
    case Send(thread, nonce, bots, stamps) => SendKeepsNewest(s, thread, nonce, bots, stamps);
    case FollowUp(thread, bot, stamp) => FollowUpKeepsNewest(s, thread, bot, stamp);
    case Executor(run, to, taskTo) => ExecutorKeepsNewestExactly(s, run, to, taskTo);
  }

  /**
   Over any history: every queued run stays its bot's newest exactly when none goes back to queued behind a
   newer one.
   */
  lemma {:induction false} AlwaysNewestExactly(s: Store, writes: seq<Write>)
    requires Runs(s, writes) && OnlyNewestQueued(s)
    ensures AlwaysNewest(s, writes) <==> AllResumeNewest(s, writes)
    decreases |writes|
  {
    if writes != [] {
      ApplyKeepsNewestExactly(s, writes[0]);
      if ResumesNewest(s, writes[0]) {
        AlwaysNewestExactly(Apply(s, writes[0]), writes[1..]);
      }
    }
  }

  /** No bot has two queued runs in one thread. */
  ghost predicate Unique(s: Store) {
    forall i, j :: 0 <= i < j < |s.runs| && SameBot(s, i, j) ==> !(s.runs[i].status.Queued? && s.runs[j].status.Queued?)
  }

  predicate SameBot(s: Store, i: nat, j: nat)
    requires i < |s.runs| && j < |s.runs|
  {
    s.runs[i].thread == s.runs[j].thread && s.runs[i].bot == s.runs[j].bot
  }

  /** A run returning to queued finds no other queued run of its bot in its thread. */
  predicate ResumesAlone(s: Store, w: Write)
    requires Legal(s, w)
  {
    w.Executor? && w.to.Queued? ==>
      forall j :: 0 <= j < |s.runs| && j != w.run && SameBot(s, w.run, j) ==> !s.runs[j].status.Queued?
  }

  lemma SendKeepsUnique(s: Store, thread: nat, nonce: Option<string>, bots: seq<nat>, stamps: seq<Stamp>)
    requires |stamps| == |bots| && DistinctBots(bots) && Unique(s)
    ensures Unique(SendEffect(s, thread, nonce, bots, stamps))
  {
    var after := SendEffect(s, thread, nonce, bots, stamps);
    forall i, j | 0 <= i < j < |after.runs| && SameBot(after, i, j)
      ensures !(after.runs[i].status.Queued? && after.runs[j].status.Queued?)
    {
      if j < |s.runs| {
        assert SameBot(s, i, j);
      }
    }
  }

  lemma FollowUpKeepsUnique(s: Store, thread: nat, bot: nat, stamp: Stamp)
    requires Unique(s)
    ensures Unique(FollowUpEffect(s, thread, bot, stamp))
  {
    var after := FollowUpEffect(s, thread, bot, stamp);
    forall i, j | 0 <= i < j < |after.runs| && SameBot(after, i, j)
      ensures !(after.runs[i].status.Queued? && after.runs[j].status.Queued?)
    {
      assert i < |s.runs| ==> s.runs[i] in s.runs;
      if j < |s.runs| {
        assert SameBot(s, i, j);
      }
    }
  }

  lemma ExecutorKeepsUniqueExactly(s: Store, run: nat, to: Status, taskTo: Status)
    requires Legal(s, Executor(run, to, taskTo)) && Unique(s)
    ensures Unique(ExecutorEffect(s, run, to, taskTo)) <==> ResumesAlone(s, Executor(run, to, taskTo))
  {
    var after := ExecutorEffect(s, run, to, taskTo);
    assert forall i, j :: 0 <= i < |s.runs| && 0 <= j < |s.runs| ==> (SameBot(after, i, j) <==> SameBot(s, i, j));
    if to.Queued? && !ResumesAlone(s, Executor(run, to, taskTo)) {
      var j :| 0 <= j < |s.runs| && j != run && SameBot(s, run, j) && s.runs[j].status.Queued?;
      assert SameBot(after, if run < j then run else j, if run < j then j else run);
    }
  }

  lemma ApplyKeepsUniqueExactly(s: Store, w: Write)
    requires Legal(s, w) && Unique(s)
    ensures Unique(Apply(s, w)) <==> ResumesAlone(s, w)
  {
    match w
    case Send(thread, nonce, bots, stamps) => SendKeepsUnique(s, thread, nonce, bots, stamps);
    case FollowUp(thread, bot, stamp) => FollowUpKeepsUnique(s, thread, bot, stamp);
    case Executor(run, to, taskTo) => ExecutorKeepsUniqueExactly(s, run, to, taskTo);
  }

  ghost predicate AllResumeAlone(s: Store, writes: seq<Write>)
    requires Runs(s, writes)
    decreases |writes|
  {
    writes == [] || (ResumesAlone(s, writes[0]) && AllResumeAlone(Apply(s, writes[0]), writes[1..]))
  }

  /** At every instant of the history no bot has two queued runs in one thread. */
  ghost predicate AlwaysUnique(s: Store, writes: seq<Write>)
    requires Runs(s, writes)
    decreases |writes|
  {
    Unique(s) && (writes == [] || AlwaysUnique(Apply(s, writes[0]), writes[1..]))
  }

  /**
   Over any history: queued runs stay unique exactly when every run going back to queued finds none of its
   bot there.
   */
  lemma {:induction false} AlwaysUniqueExactly(s: Store, writes: seq<Write>)
    requires Runs(s, writes) && Unique(s)
    ensures AlwaysUnique(s, writes) <==> AllResumeAlone(s, writes)
    decreases |writes|
  {
    if writes != [] {
      ApplyKeepsUniqueExactly(s, writes[0]);
      if ResumesAlone(s, writes[0]) {
        AlwaysUniqueExactly(Apply(s, writes[0]), writes[1..]);
      }
    }
  }

  const Empty := Store([], [], [], map[])

  lemma {:induction false} RunKeepsInvariant(s: Store, writes: seq<Write>)
    requires Invariant(s) && Runs(s, writes)
    ensures Invariant(Outcome(s, writes)) && Extends(s, Outcome(s, writes))
    decreases |writes|
  {
    if writes != [] {
      var w := writes[0];
      var next := Apply(s, w);
      ApplyKeyed(s, w);
      ApplyLinked(s, w);
      ApplyExtends(s, w);
      RunKeepsInvariant(next, writes[1..]);
      ExtendsTransitive(s, next, Outcome(s, writes));
    }
  }

  /** Every history: nonces key one message each; and exactly which histories keep queued runs unique, and newest. */
  lemma EveryRun(writes: seq<Write>)
    requires Runs(Empty, writes)
    ensures Invariant(Outcome(Empty, writes))
    ensures AlwaysUnique(Empty, writes) <==> AllResumeAlone(Empty, writes)
    ensures AlwaysNewest(Empty, writes) <==> AllResumeNewest(Empty, writes)
    ensures var s := Outcome(Empty, writes);
            && (forall i, j :: 0 <= i < j < |s.messages| && s.messages[i].thread == s.messages[j].thread ==>
                  && s.messages[i].seqNo < s.messages[j].seqNo
                  && (s.messages[i].nonce == None || s.messages[i].nonce != s.messages[j].nonce))
            && (forall i :: 0 <= i < |s.runs| ==>
                  && s.runs[i].task < |s.tasks| && s.runs[i].source < |s.messages|
                  && s.messages[s.runs[i].source].thread == s.runs[i].thread)
            && (forall i, j :: 0 <= i < j < |s.runs| ==> s.runs[i].task != s.runs[j].task)
  {
    RunKeepsInvariant(Empty, writes);
    AlwaysUniqueExactly(Empty, writes);
    AlwaysNewestExactly(Empty, writes);
  }

  /** Answering an old run after a newer send leaves two queued runs of one bot in one thread. */
  lemma ResumingAnOldRunDuplicates()
    ensures var writes := [Send(0, None, [7], [Stamp(0, 0)]), Executor(0, Leased, Queued), Executor(0, Running, Queued),
                           Executor(0, WaitingInput, Queued), Send(0, None, [7], [Stamp(1, 1)]),
                           Executor(0, Queued, Queued)];
            && Runs(Empty, writes)
            && !Unique(Outcome(Empty, writes))
  {
    var first, second := Send(0, None, [7], [Stamp(0, 0)]), Send(0, None, [7], [Stamp(1, 1)]);
    var s1 := Store([Message(0, None, 0)], [Run(0, 7, Queued, 0, 0, Stamp(0, 0))], [Queued], map[0 := 1]);
    var s4 := s1.(runs := [Run(0, 7, WaitingInput, 0, 0, Stamp(0, 0))]);
    FirstSend();
    Pauses(s1);
    var resumed := [Executor(0, Queued, Queued)];
    var s5 := Apply(s4, second);
    assert s5.runs == [s4.runs[0], Run(0, 7, Queued, 1, 1, Stamp(1, 1))];
    Prepend(s5, resumed[0], []);
    assert resumed == [resumed[0]] + [];
    Prepend(s4, second, resumed);
    var pause := [Executor(0, Leased, Queued), Executor(0, Running, Queued), Executor(0, WaitingInput, Queued)];
    var s2, s3 := Apply(s1, pause[0]), Apply(Apply(s1, pause[0]), pause[1]);
    var tail := [second] + resumed;
    Prepend(s3, pause[2], tail);
    Prepend(s2, pause[1], [pause[2]] + tail);
    Prepend(s1, pause[0], [pause[1]] + ([pause[2]] + tail));
    Prepend(Empty, first, [pause[0]] + ([pause[1]] + ([pause[2]] + tail)));
    var writes := [first, pause[0], pause[1], pause[2], second, resumed[0]];
    assert writes == [first] + ([pause[0]] + ([pause[1]] + ([pause[2]] + tail)));
    var last := Outcome(Empty, writes);
    assert last == Apply(s5, resumed[0]);
    TwoQueued(last, 0, 1);
  }

  lemma TwoQueued(s: Store, i: nat, j: nat)
    requires i < j < |s.runs| && SameBot(s, i, j) && s.runs[i].status.Queued? && s.runs[j].status.Queued?
    ensures !Unique(s)
  {
  }

  lemma FirstSend()
    ensures var w := Send(0, None, [7], [Stamp(0, 0)]);
            && Legal(Empty, w)
            && Apply(Empty, w) == Store([Message(0, None, 0)], [Run(0, 7, Queued, 0, 0, Stamp(0, 0))], [Queued],
                                        map[0 := 1])
  {
  }

  /** A leased run that starts and asks a question. */
  lemma Pauses(s: Store)
    requires |s.runs| == |s.tasks| == 1 && s.runs[0].task == 0 && s.runs[0].status.Queued? && s.tasks == [Queued]
    ensures var a, b, c := Executor(0, Leased, Queued), Executor(0, Running, Queued), Executor(0, WaitingInput, Queued);
            && Legal(s, a) && Legal(Apply(s, a), b) && Legal(Apply(Apply(s, a), b), c)
            && Apply(Apply(Apply(s, a), b), c) == s.(runs := [s.runs[0].(status := WaitingInput)])
  {
  }

  lemma Prepend(s: Store, w: Write, rest: seq<Write>)
    requires Legal(s, w) && Runs(Apply(s, w), rest)
    ensures Runs(s, [w] + rest) && Outcome(s, [w] + rest) == Outcome(Apply(s, w), rest)
  {
    assert ([w] + rest)[1..] == rest;
  }

  // ----- receipts

  /** What a caller of a send is told. */
  datatype Receipt = Receipt(seqNo: nat, first: nat, runIds: set<nat>)

  /** `sourceRuns` ordered by creation time and row id. */
  predicate Before(a: Stamp, b: Stamp) {
    a.createdAt < b.createdAt || (a.createdAt == b.createdAt && a.rowId <= b.rowId)
  }

  ghost predicate IsFirst(s: Store, batch: set<nat>, run: nat)
    requires forall i :: i in batch ==> i < |s.runs|
  {
    run in batch && forall i :: i in batch ==> Before(s.runs[run].stamp, s.runs[i].stamp)
  }

  /** The receipt a replay reads for a message that created runs. */
  ghost predicate IsReceipt(s: Store, thread: nat, nonce: Option<string>, receipt: Receipt) {
    exists m :: 0 <= m < |s.messages| && MessageReceipt(s, m, thread, nonce, receipt)
  }

  ghost predicate HasReceipt(s: Store, thread: nat, nonce: Option<string>) {
    exists r :: IsReceipt(s, thread, nonce, r)
  }

  ghost predicate MessageReceipt(s: Store, m: nat, thread: nat, nonce: Option<string>, receipt: Receipt)
    requires m < |s.messages|
  {
    && s.messages[m].thread == thread && s.messages[m].nonce == nonce
    && receipt.seqNo == s.messages[m].seqNo
    && receipt.runIds == Batch(s, m) != {}
    && receipt.first in receipt.runIds
  }

  /** Every caller that succeeds under one nonce is told the same message and the same runs. */
  lemma OneReceipt(a: Store, b: Store, thread: nat, nonce: Option<string>, first: Receipt, second: Receipt)
    requires Keyed(b) && Extends(a, b) && nonce.Some?
    requires IsReceipt(a, thread, nonce, first) && IsReceipt(b, thread, nonce, second)
    ensures first.seqNo == second.seqNo && first.runIds == second.runIds
  {
    var m :| 0 <= m < |a.messages| && MessageReceipt(a, m, thread, nonce, first);
    var n :| 0 <= n < |b.messages| && MessageReceipt(b, n, thread, nonce, second);
    assert b.messages[m] == a.messages[m];
    BatchStable(a, b, m);
  }

  lemma ReceiptStable(a: Store, b: Store, thread: nat, nonce: Option<string>, receipt: Receipt)
    requires Extends(a, b) && IsReceipt(a, thread, nonce, receipt)
    ensures IsReceipt(b, thread, nonce, receipt)
  {
    var m :| 0 <= m < |a.messages| && MessageReceipt(a, m, thread, nonce, receipt);
    BatchStable(a, b, m);
    assert MessageReceipt(b, m, thread, nonce, receipt);
  }

  /** The runs of a send's message are exactly those it created. */
  lemma SendBatch(s: Store, thread: nat, nonce: Option<string>, bots: seq<nat>, stamps: seq<Stamp>)
    requires Linked(s) && |bots| == |stamps|
    ensures forall i :: i in Batch(SendEffect(s, thread, nonce, bots, stamps), |s.messages|)
                        <==> |s.runs| <= i < |s.runs| + |bots|
  {
    var after := SendEffect(s, thread, nonce, bots, stamps);
    assert forall i :: 0 <= i < |s.runs| ==> after.runs[i].source == s.runs[i].source < |s.messages|;
    assert forall i :: |s.runs| <= i < |after.runs| ==> after.runs[i].source == |s.messages|;
  }

  // ----- recorded histories

  predicate Recorded(log: Log<Write>)
    decreases log, 0
  {
    match log
    case Begin => true
    case Then(before, w, _) => Recorded(before) && Legal(State(before), w)
  }

  /** The store after the log. */
  function State(log: Log<Write>): Store
    requires Recorded(log)
    decreases log, 1
  {
    match log
    case Begin => Empty
    case Then(before, w, _) => Apply(State(before), w)
  }

  /** A message under a nonce created runs. */
  ghost predicate Answered(s: Store) {
    forall m :: 0 <= m < |s.messages| && s.messages[m].nonce.Some? ==> Batch(s, m) != {}
  }

  lemma ApplyAnswered(s: Store, w: Write)
    requires Legal(s, w) && Linked(s) && Answered(s)
    ensures Answered(Apply(s, w))
  {
    var after := Apply(s, w);
    ApplyExtends(s, w);
    forall m | 0 <= m < |after.messages| && after.messages[m].nonce.Some? ensures Batch(after, m) != {} {
      if m < |s.messages| {
        BatchStable(s, after, m);
      } else {
        SendBatch(s, w.thread, w.nonce, w.bots, w.stamps);
        assert |s.runs| in Batch(after, |s.messages|);
      }
    }
  }

  lemma {:induction false} RecordedExtends(a: Log<Write>, b: Log<Write>)
    requires Recorded(b) && Continues(a, b)
    ensures Recorded(a) && Extends(State(a), State(b))
    ensures Invariant(State(b)) && Answered(State(b))
    decreases b
  {
    if b.Then? {
      RecordedExtends(if a == b then a.before else a, b.before);
      var s, w := State(b.before), b.write;
      ApplyKeyed(s, w);
      ApplyLinked(s, w);
      ApplyAnswered(s, w);
      ApplyExtends(s, w);
      if a != b {
        ExtendsTransitive(State(a), s, State(b));
      }
    }
  }

  /** Under an answered nonce exactly those messages exist that have a receipt. */
  lemma TakenIffReceipt(s: Store, thread: nat, nonce: Option<string>)
    requires Answered(s) && nonce.Some?
    ensures NonceTaken(s, thread, nonce) <==> HasReceipt(s, thread, nonce)
  {
    if NonceTaken(s, thread, nonce) {
      var message :| message in s.messages && message.thread == thread && message.nonce == nonce;
      var m :| 0 <= m < |s.messages| && s.messages[m] == message;
      var first :| first in Batch(s, m);
      var receipt := Receipt(message.seqNo, first, Batch(s, m));
      assert MessageReceipt(s, m, thread, nonce, receipt);
      assert IsReceipt(s, thread, nonce, receipt);
    }
    if r :| IsReceipt(s, thread, nonce, r) {
      var m :| 0 <= m < |s.messages| && MessageReceipt(s, m, thread, nonce, r);
      assert s.messages[m] in s.messages;
    }
  }

  // ----- what a caller does

  datatype SendOutcome = Sent(receipt: Receipt) | Threw

  /** What a lookup answers, if its reads do not reject. */
  datatype Answer = Found(receipt: Option<Receipt>) | LookupRejects

  /**
   How one attempt at the transaction ends for its caller: only a conflict is tried again, and a lost one
   committed.
   */
  datatype Attempt = Conflicts | Aborts | Answers | Loses

  /** How the retried transaction ends: with an acknowledged or a lost commit, or without one. */
  datatype Commit = Acknowledged(receipt: Receipt) | Lost | NotCommitted

  /** Whether the two lookups reject, and how the attempts end. */
  datatype SendFaults = SendFaults(first: bool, attempts: seq<Attempt>, last: bool)

  /** All that a caller learns; the last two only if it got so far. */
  datatype Seen = Seen(first: Answer, commit: Commit, last: Answer)

  /** The attempt that is not tried again. */
  function Decided(attempts: seq<Attempt>): Attempt
    requires attempts != []
  {
    if attempts[0].Conflicts? && |attempts| > 1 then Decided(attempts[1..]) else attempts[0]
  }

  /** What a caller makes of it. */
  function SendResult(seen: Seen): SendOutcome {
    match seen.first
    case LookupRejects => Threw
    case Found(existing) =>
      if existing.Some? then Sent(existing.value)
      else if seen.commit.Acknowledged? then Sent(seen.commit.receipt)
      else if seen.last.Found? && seen.last.receipt.Some? then Sent(seen.last.receipt.value)
      else Threw
  }

  /** A lookup finds the receipt that is there, unless it rejects. */
  ghost predicate LookupFits(s: Store, thread: nat, nonce: Option<string>, rejects: bool, answer: Answer) {
    && (answer.LookupRejects? <==> nonce.Some? && rejects)
    && (answer.Found? ==>
          if answer.receipt.None? then nonce.None? || !HasReceipt(s, thread, nonce)
          else nonce.Some? && IsReceipt(s, thread, nonce, answer.receipt.value) && LeastFirst(s, answer.receipt.value))
  }

  ghost predicate LeastFirst(s: Store, receipt: Receipt) {
    (forall i :: i in receipt.runIds ==> i < |s.runs|) && IsFirst(s, receipt.runIds, receipt.first)
  }

  /** What a committing caller is told: its message, and the runs right after those that were there. */
  function OwnReceipt(s: Store, thread: nat, bots: nat): Receipt {
    Receipt(NextSeq(s, thread), |s.runs|, Interval(|s.runs|, bots))
  }

  function Interval(from: nat, count: nat): (r: set<nat>)
    ensures forall i :: i in r <==> from <= i < from + count
  {
    if count == 0 then {} else Interval(from, count - 1) + {from + count - 1}
  }

  /** From `a` to `b`: the caller's one transaction, committed at `at` at most once, or none. */
  ghost predicate CommitFits(a: Log<Write>, b: Log<Write>, send: Write, attempts: seq<Attempt>, commit: Commit,
                             at: Log<Write>)
    requires send.Send? && attempts != []
  {
    && Recorded(b) && Continues(a, b)
    && if Decided(attempts).Conflicts? || Decided(attempts).Aborts? then commit.NotCommitted? && Own(b) == Own(a)
       else
         && Recorded(at) && Continues(a, at)
         && if NonceTaken(State(at), send.thread, send.nonce) then
              commit.NotCommitted? && Own(b) == Own(a) && Continues(at, b)
            else
              && Continues(Then(at, send, true), b) && Own(b) == Own(a) + [send]
              && commit == if Decided(attempts).Loses? then Lost
                           else Acknowledged(OwnReceipt(State(at), send.thread, |send.bots|))
  }

  /** All of a call, from `a` to `b`: its lookups at `looked` and at the end, and its transaction until `mid`. */
  ghost predicate SendFits(a: Log<Write>, b: Log<Write>, send: Write, f: SendFaults, outcome: SendOutcome, seen: Seen,
                           looked: Log<Write>, at: Log<Write>, mid: Log<Write>)
    requires send.Send? && f.attempts != []
  {
    && outcome == SendResult(seen)
    && Recorded(looked) && Continues(a, looked) && Own(looked) == Own(a)
    && LookupFits(State(looked), send.thread, send.nonce, f.first, seen.first)
    && if seen.first != Found(None) then looked == b
       else
         && CommitFits(looked, mid, send, f.attempts, seen.commit, at)
         && if seen.commit.Acknowledged? then mid == b
            else
              && Recorded(b) && Continues(mid, b) && Own(b) == Own(mid)
              && LookupFits(State(b), send.thread, send.nonce, f.last, seen.last)
  }

  /** One attempt that failed without effect. */
  lemma FailedFits(a: Log<Write>, b: Log<Write>, send: Write, attempt: Attempt, at: Log<Write>)
    requires send.Send? && (attempt.Conflicts? || attempt.Aborts?)
    requires Recorded(b) && Continues(a, b) && Own(b) == Own(a)
    ensures CommitFits(a, b, send, [attempt], NotCommitted, at)
  {
    assert Decided([attempt]) == attempt;
  }

  /** One attempt that reached its commit at `at`. */
  lemma ReachedFits(a: Log<Write>, at: Log<Write>, b: Log<Write>, send: Write, attempt: Attempt, commit: Commit)
    requires send.Send? && (attempt.Answers? || attempt.Loses?)
    requires Recorded(at) && Recorded(b) && Continues(a, at) && Own(at) == Own(a)
    requires if NonceTaken(State(at), send.thread, send.nonce) then commit.NotCommitted? && b == at
             else
               && b == Then(at, send, true)
               && commit == if attempt.Loses? then Lost
                            else Acknowledged(OwnReceipt(State(at), send.thread, |send.bots|))
    ensures CommitFits(a, b, send, [attempt], commit, at)
  {
    assert Decided([attempt]) == attempt;
    ContinuesTransitive(a, at, b);
  }

  /** The deciding attempt, begun later by the same call. */
  lemma FitsLater(a: Log<Write>, later: Log<Write>, b: Log<Write>, send: Write, attempts: seq<Attempt>,
                  attempt: Attempt, commit: Commit, at: Log<Write>)
    requires send.Send? && attempts != [] && Decided(attempts) == attempt
    requires Continues(a, later) && Own(later) == Own(a) && CommitFits(later, b, send, [attempt], commit, at)
    ensures CommitFits(a, b, send, attempts, commit, at)
  {
    ContinuesTransitive(a, later, b);
    if !attempt.Conflicts? && !attempt.Aborts? {
      ContinuesTransitive(a, later, at);
    }
  }

  lemma ReceiptsStay(a: Log<Write>, b: Log<Write>, thread: nat, nonce: Option<string>)
    requires Recorded(b) && Continues(a, b)
    ensures Recorded(a)
    ensures forall r :: IsReceipt(State(a), thread, nonce, r) ==> IsReceipt(State(b), thread, nonce, r)
    ensures HasReceipt(State(a), thread, nonce) ==> HasReceipt(State(b), thread, nonce)
  {
    RecordedExtends(a, b);
    forall r | IsReceipt(State(a), thread, nonce, r) ensures IsReceipt(State(b), thread, nonce, r) {
      ReceiptStable(State(a), State(b), thread, nonce, r);
    }
  }

  /** A committed send has its receipt. */
  lemma OwnReceiptIsReceipt(at: Log<Write>, send: Write)
    requires send.Send? && Recorded(Then(at, send, true))
    ensures IsReceipt(Apply(State(at), send), send.thread, send.nonce, OwnReceipt(State(at), send.thread, |send.bots|))
  {
    var s := State(at);
    RecordedExtends(at, at);
    SendBatch(s, send.thread, send.nonce, send.bots, send.stamps);
    var receipt := OwnReceipt(s, send.thread, |send.bots|);
    assert |s.runs| in receipt.runIds;
    assert Batch(Apply(s, send), |s.messages|) == receipt.runIds;
    assert MessageReceipt(Apply(s, send), |s.messages|, send.thread, send.nonce, receipt);
  }

  /** After a transaction that took effect, or was refused because the nonce was taken, there is a receipt. */
  lemma CommitLeavesAReceipt(a: Log<Write>, b: Log<Write>, send: Write, attempts: seq<Attempt>, commit: Commit,
                             at: Log<Write>)
    requires send.Send? && attempts != [] && CommitFits(a, b, send, attempts, commit, at)
    requires Decided(attempts).Answers? || Decided(attempts).Loses?
    ensures commit.NotCommitted? ==> send.nonce.Some?
    ensures HasReceipt(State(b), send.thread, send.nonce)
    ensures commit.Acknowledged? ==> IsReceipt(State(b), send.thread, send.nonce, commit.receipt)
  {
    if NonceTaken(State(at), send.thread, send.nonce) {
      RecordedExtends(at, at);
      TakenIffReceipt(State(at), send.thread, send.nonce);
      ReceiptsStay(at, b, send.thread, send.nonce);
    } else {
      var sent := Then(at, send, true);
      RecordedExtends(sent, b);
      OwnReceiptIsReceipt(at, send);
      ReceiptsStay(sent, b, send.thread, send.nonce);
      assert IsReceipt(State(sent), send.thread, send.nonce, OwnReceipt(State(at), send.thread, |send.bots|));
    }
  }

  /** What a lookup tells, on the rows: the message under the nonce, all of its runs and the least of them. */
  lemma LookupTells(s: Store, thread: nat, nonce: Option<string>, rejects: bool, answer: Answer)
    requires LookupFits(s, thread, nonce, rejects, answer)
    ensures answer.LookupRejects? <==> nonce.Some? && rejects
    ensures answer.Found? && answer.receipt.Some? ==>
              var r := answer.receipt.value;
              exists m :: 0 <= m < |s.messages| && s.messages[m] == Message(thread, nonce, r.seqNo)
                          && (forall i :: i in r.runIds <==> 0 <= i < |s.runs| && s.runs[i].source == m)
                          && r.first in r.runIds
                          && forall i :: 0 <= i < |s.runs| && s.runs[i].source == m ==>
                               var a, b := s.runs[r.first].stamp, s.runs[i].stamp;
                               a.createdAt < b.createdAt || (a.createdAt == b.createdAt && a.rowId <= b.rowId)
    ensures answer == Found(None) && nonce.Some? ==>
              forall m, i :: 0 <= m < |s.messages| && 0 <= i < |s.runs| && s.runs[i].source == m ==>
                s.messages[m].thread != thread || s.messages[m].nonce != nonce
  {
    if answer.Found? && answer.receipt.Some? {
      var m :| 0 <= m < |s.messages| && MessageReceipt(s, m, thread, nonce, answer.receipt.value);
      assert s.messages[m] == Message(thread, nonce, answer.receipt.value.seqNo);
    }
    if answer == Found(None) && nonce.Some? {
      forall m, i | 0 <= m < |s.messages| && 0 <= i < |s.runs| && s.runs[i].source == m
        ensures s.messages[m].thread != thread || s.messages[m].nonce != nonce
      {
        if s.messages[m].thread == thread && s.messages[m].nonce == nonce {
          var r := Receipt(s.messages[m].seqNo, i, Batch(s, m));
          assert i in Batch(s, m);
          assert MessageReceipt(s, m, thread, nonce, r) && IsReceipt(s, thread, nonce, r);
        }
      }
    }
  }

  lemma {:induction false} DecidedIs(attempts: seq<Attempt>, k: nat)
    requires k < |attempts| && forall j :: 0 <= j < k ==> attempts[j] == Conflicts
    requires attempts[k] != Conflicts || k == |attempts| - 1
    ensures Decided(attempts) == attempts[k]
  {
    if k > 0 {
      DecidedIs(attempts[1..], k - 1);
    }
  }

  /**
   What a transaction must do, decided by its attempt `k`, the first that does not conflict or the last: it writes
   the send exactly when that attempt reaches its commit and the nonce is free then.
   */
  lemma CommitMust(a: Log<Write>, b: Log<Write>, send: Write, attempts: seq<Attempt>, commit: Commit, at: Log<Write>,
                   k: nat)
    requires send.Send? && k < |attempts| && CommitFits(a, b, send, attempts, commit, at)
    requires forall j :: 0 <= j < k ==> attempts[j] == Conflicts
    requires attempts[k] != Conflicts || k == |attempts| - 1
    ensures attempts[k] == Answers || attempts[k] == Loses ==> Recorded(at)
    ensures Own(b) == Own(a) || Own(b) == Own(a) + [send]
    ensures Own(b) == Own(a) + [send] <==>
              && (attempts[k] == Answers || attempts[k] == Loses)
              && (send.nonce == None
                  || forall m :: m in State(at).messages ==> m.thread != send.thread || m.nonce != send.nonce)
    ensures Own(b) == Own(a) + [send] ==>
              && Continues(Then(at, send, true), b)
              && (commit.Acknowledged? <==> attempts[k] == Answers) && (commit.Lost? <==> attempts[k] == Loses)
    ensures Own(b) == Own(a) ==> commit == NotCommitted
  {
    DecidedIs(attempts, k);
  }

  /** An acknowledged send is told its message, the runs it created, and the run of its first bot. */
  lemma AcknowledgedTells(a: Log<Write>, b: Log<Write>, send: Write, f: SendFaults, outcome: SendOutcome, seen: Seen,
                          looked: Log<Write>, at: Log<Write>, mid: Log<Write>)
    requires send.Send? && f.attempts != [] && SendFits(a, b, send, f, outcome, seen, looked, at, mid)
    requires seen.first == Found(None) && seen.commit.Acknowledged?
    ensures outcome.Sent? && Recorded(at) && Recorded(Then(at, send, true)) && Recorded(b)
    ensures var r, now, s := outcome.receipt, State(Then(at, send, true)), State(b);
            && |State(at).messages| < |s.messages|
            && s.messages[|State(at).messages|] == Message(send.thread, send.nonce, r.seqNo)
            && (forall i :: i in r.runIds <==> |State(at).runs| <= i < |now.runs|)
            && r.first in r.runIds && r.first < |s.runs| && s.runs[r.first].source == |State(at).messages|
            && s.runs[r.first].bot == send.bots[0] && s.runs[r.first].thread == send.thread
            && now.runs[r.first].status == Queued
  {
    var sent := Then(at, send, true);
    RecordedExtends(sent, b);
    SendSupersedes(State(at), send.thread, send.nonce, send.bots, send.stamps);
    assert State(sent).runs[|State(at).runs|].bot == send.bots[0];
    assert State(sent).messages[|State(at).messages|]
        == Message(send.thread, send.nonce, NextSeq(State(at), send.thread));
  }

  /** The runs a committed send created, in any later store. */
  lemma CreatedRuns(s: Store, send: Write, later: Store)
    requires send.Send? && Legal(s, send) && Extends(Apply(s, send), later)
    ensures Stamped(later, |s.runs|, send.stamps)
  {
    var sent := Apply(s, send);
    forall k | 0 <= k < |send.bots| ensures later.runs[|s.runs| + k].stamp == send.stamps[k] {
      assert SameRow(sent.runs[|s.runs| + k], later.runs[|s.runs| + k]);
    }
  }

  /** A replay after a commit is told the message and runs of that commit. */
  lemma ReplayAfterCommit(at: Log<Write>, send: Write, b: Log<Write>, told: Receipt)
    requires send.Send? && Recorded(Then(at, send, true)) && Recorded(b) && Continues(Then(at, send, true), b)
    requires send.nonce.Some? && IsReceipt(State(b), send.thread, send.nonce, told)
    ensures Recorded(at) && Extends(Apply(State(at), send), State(b))
    ensures var own := OwnReceipt(State(at), send.thread, |send.bots|);
            told.seqNo == own.seqNo && told.runIds == own.runIds
  {
    RecordedExtends(Then(at, send, true), b);
    OwnReceiptIsReceipt(at, send);
    OneReceipt(Apply(State(at), send), State(b), send.thread, send.nonce,
               OwnReceipt(State(at), send.thread, |send.bots|), told);
  }

  /**
   The committing caller is told the first run it created, a replaying one the least by creation time and row
   id. They are told the same run exactly when no run of the batch is earlier than its first.
   */
  lemma FirstRunAgrees(a: Log<Write>, c: Log<Write>, send: Write, attempts: seq<Attempt>, mine: Receipt,
                       at: Log<Write>, b: Log<Write>, rejects: bool, theirs: Receipt)
    requires send.Send? && attempts != [] && CommitFits(a, c, send, attempts, Acknowledged(mine), at)
    requires forall i, j :: 0 <= i < j < |send.stamps| ==> send.stamps[i].rowId != send.stamps[j].rowId
    requires Recorded(b) && Continues(c, b)
    requires LookupFits(State(b), send.thread, send.nonce, rejects, Found(Some(theirs)))
    ensures |send.stamps| > 0
    ensures mine.first == theirs.first <==>
            forall k :: 0 <= k < |send.stamps| ==>
              var first, other := send.stamps[0], send.stamps[k];
              first.createdAt < other.createdAt || (first.createdAt == other.createdAt && first.rowId <= other.rowId)
  {
    var sent := Then(at, send, true);
    ContinuesTransitive(sent, c, b);
    RecordedExtends(sent, b);
    ReplayAfterCommit(at, send, b, theirs);
    LeastCreated(State(at), send, State(b), theirs);
  }

  lemma LeastCreated(s: Store, send: Write, later: Store, told: Receipt)
    requires send.Send? && Legal(s, send) && Extends(Apply(s, send), later) && LeastFirst(later, told)
    requires told.runIds == Interval(|s.runs|, |send.bots|)
    requires forall i, j :: 0 <= i < j < |send.stamps| ==> send.stamps[i].rowId != send.stamps[j].rowId
    ensures told.first == |s.runs| <==> FirstIsLeast(send.stamps)
  {
    CreatedRuns(s, send, later);
    LeastOf(later, told, |s.runs|, send.stamps);
  }

  ghost predicate FirstIsLeast(stamps: seq<Stamp>)
    requires |stamps| > 0
  {
    forall k :: 0 <= k < |stamps| ==> Before(stamps[0], stamps[k])
  }

  ghost predicate Stamped(s: Store, base: nat, stamps: seq<Stamp>) {
    base + |stamps| <= |s.runs| && forall k :: 0 <= k < |stamps| ==> s.runs[base + k].stamp == stamps[k]
  }

  lemma LeastOf(s: Store, told: Receipt, base: nat, stamps: seq<Stamp>)
    requires |stamps| > 0 && Stamped(s, base, stamps) && LeastFirst(s, told)
    requires told.runIds == Interval(base, |stamps|)
    requires forall i, j :: 0 <= i < j < |stamps| ==> stamps[i].rowId != stamps[j].rowId
    ensures told.first == base <==> FirstIsLeast(stamps)
  {
    var first := told.first - base;
    assert s.runs[base + first].stamp == stamps[first] && s.runs[base + 0].stamp == stamps[0];
    assert Before(stamps[first], stamps[0]);
    if told.first == base {
      forall k | 0 <= k < |stamps| ensures Before(stamps[0], stamps[k]) {
        assert base + k in told.runIds;
      }
    }
  }

  /**
   A success is true. Under a nonce that has a receipt a call succeeds exactly if its first lookup answers; and
   one whose lookups answer leaves no receipt behind when it throws.
   */
  lemma SendIsTrue(a: Log<Write>, b: Log<Write>, send: Write, f: SendFaults, outcome: SendOutcome, seen: Seen,
                   looked: Log<Write>, at: Log<Write>, mid: Log<Write>)
    requires send.Send? && f.attempts != [] && SendFits(a, b, send, f, outcome, seen, looked, at, mid)
    ensures Recorded(a) && Recorded(b) && Continues(a, b)
    ensures outcome.Sent? ==> IsReceipt(State(b), send.thread, send.nonce, outcome.receipt)
    ensures outcome.Sent? ==>
              || seen.first == Found(Some(outcome.receipt))
              || (seen.first == Found(None)
                  && (seen.commit == Acknowledged(outcome.receipt) || seen.last == Found(Some(outcome.receipt))))
    ensures send.nonce.Some? && HasReceipt(State(a), send.thread, send.nonce) ==> (outcome.Sent? <==> !f.first)
    ensures send.nonce.Some? && !f.first && !f.last ==>
              (outcome.Sent? <==> HasReceipt(State(b), send.thread, send.nonce))
  {
    RecordedExtends(a, looked);
    ReceiptsStay(a, looked, send.thread, send.nonce);
    if seen.first == Found(None) {
      ContinuesTransitive(a, looked, mid);
      if seen.commit.Acknowledged? {
        CommitLeavesAReceipt(looked, mid, send, f.attempts, seen.commit, at);
      } else {
        ContinuesTransitive(a, mid, b);
      }
    }
  }

  /**
   A call must succeed when its lookups answer and the deciding one of its three attempts, `k`, answers too, or
   only the answer of that attempt was lost.
   */
  lemma SendSucceeds(a: Log<Write>, b: Log<Write>, send: Write, f: SendFaults, outcome: SendOutcome, seen: Seen,
                     looked: Log<Write>, at: Log<Write>, mid: Log<Write>, k: nat)
    requires send.Send? && k < |f.attempts| && SendFits(a, b, send, f, outcome, seen, looked, at, mid)
    requires forall j :: 0 <= j < k ==> f.attempts[j] == Conflicts
    ensures !f.first && !f.last && f.attempts[k] == Answers ==> outcome.Sent?
    ensures !f.first && !f.last && f.attempts[k] == Loses && send.nonce.Some? ==> outcome.Sent?
    ensures seen.first == Found(None) && seen.commit.Lost? ==>
              && HasReceipt(State(b), send.thread, send.nonce)
              && (outcome.Threw? <==> send.nonce.None? || f.last)
  {
    RecordedExtends(looked, looked);
    if f.attempts[k] != Conflicts {
      DecidedIs(f.attempts, k);
    }
    if seen.first == Found(None) && (Decided(f.attempts).Answers? || Decided(f.attempts).Loses?) {
      CommitLeavesAReceipt(looked, mid, send, f.attempts, seen.commit, at);
      if !seen.commit.Acknowledged? {
        ReceiptsStay(mid, b, send.thread, send.nonce);
      }
    }
  }

  /**
   The commit takes effect, its acknowledgement and the second lookup are lost: the caller throws over its
   own receipt.
   */
  lemma OutageHidesTheReceipt(nonce: string)
    ensures var send := Send(0, Some(nonce), [7], [Stamp(0, 0)]);
            var sent, f := Then(Begin, send, true), SendFaults(false, [Loses], true);
            && HasReceipt(Apply(Empty, send), 0, Some(nonce))
            && SendFits(Begin, sent, send, f, Threw, Seen(Found(None), Lost, LookupRejects), Begin, Begin, sent)
  {
    var send := Send(0, Some(nonce), [7], [Stamp(0, 0)]);
    var sent := Then(Begin, send, true);
    EmptyHasNothing(0, Some(nonce));
    assert Legal(Empty, send);
    assert Recorded(Begin) && State(Begin) == Empty && Recorded(sent);
    assert Own(sent) == Own<Write>(Begin) + [send];
    OwnReceiptIsReceipt(Begin, send);
    assert IsReceipt(Apply(Empty, send), 0, Some(nonce), OwnReceipt(Empty, 0, 1));
    assert Decided([Loses]) == Loses;
    assert CommitFits(Begin, sent, send, [Loses], Lost, Begin);
  }

  lemma EmptyHasNothing(thread: nat, nonce: Option<string>)
    ensures !NonceTaken(Empty, thread, nonce) && !HasReceipt(Empty, thread, nonce)
  {
    forall r ensures !IsReceipt(Empty, thread, nonce, r) {
    }
  }

  class ThreadStore {
    var store: Store
    ghost var log: Log<Write>

    ghost predicate Valid()
      reads this
    {
      Recorded(log) && State(log) == store && Invariant(store)
    }

    constructor ()
      ensures Valid() && log == Begin
    {
      store, log := Empty, Begin;
    }

    /** Any sends, follow-ups and executor transitions of others, within a call that began at `start`. */
    method Interfere(ghost start: Log<Write>)
      requires Valid() && Continues(start, log)
      modifies this
      ensures Valid() && Continues(old(log), log) && Continues(start, log) && Own(log) == Own(old(log))
    {
      var steps: int := *;
      for n := 0 to if steps < 0 then 0 else steps
        invariant Valid() && Continues(old(log), log) && Own(log) == Own(old(log))
      {
        var w: Write := *;
        if Legal(store, w) {
          OtherWrites(w);
        }
      }
      ContinuesTransitive(start, old(log), log);
    }

    method OtherWrites(w: Write)
      requires Valid() && Legal(store, w)
      modifies this
      ensures Valid() && log == Then(old(log), w, false)
    {
      ApplyKeyed(store, w);
      ApplyLinked(store, w);
      store, log := Apply(store, w), Then(log, w, false);
    }

    /** The receipt of an earlier send under the nonce, if it created runs and no read rejects. */
    method ReplayExistingSend(thread: nat, nonce: Option<string>, rejects: bool) returns (answer: Answer)
      requires Invariant(store)
      ensures LookupFits(store, thread, nonce, rejects, answer)
    {
      if nonce.None? {
        return Found(None);
      }
      if rejects {
        return LookupRejects;
      }
      for m := 0 to |store.messages|
        invariant forall k :: 0 <= k < m ==> store.messages[k].thread != thread || store.messages[k].nonce != nonce
      {
        if store.messages[m].thread == thread && store.messages[m].nonce == nonce {
          var batch := Batch(store, m);
          if batch == {} {
            OnlyHolder(store, thread, nonce, m);
            return Found(None);
          }
          var least := LeastRun(batch);
          var found := Receipt(store.messages[m].seqNo, least, batch);
          assert MessageReceipt(store, m, thread, nonce, found);
          return Found(Some(found));
        }
      }
      answer := Found(None);
    }

    method LeastRun(batch: set<nat>) returns (run: nat)
      requires batch != {} && forall i :: i in batch ==> i < |store.runs|
      ensures IsFirst(store, batch, run)
    {
      run :| run in batch;
      var left := batch - {run};
      while left != {}
        invariant left <= batch && run in batch && run !in left
        invariant forall i :: i in batch - left ==> Before(store.runs[run].stamp, store.runs[i].stamp)
        decreases left
      {
        var next :| next in left;
        left := left - {next};
        if !Before(store.runs[run].stamp, store.runs[next].stamp) {
          run := next;
        }
      }
    }

    /** Cancels the queued runs of `bots` among the first `kept` rows, and their tasks. */
    method CancelSupersededQueuedRuns(thread: nat, bots: seq<nat>, kept: nat)
      requires kept <= |store.runs| && Linked(store)
      modifies this`store
      ensures Cancelling(old(store), store, thread, bots, kept)
    {
      var runs, tasks := store.runs, store.tasks;
      var i := 0;
      while i < kept
        invariant i <= kept && |runs| == |store.runs| && |tasks| == |store.tasks|
        invariant forall k :: 0 <= k < |runs| ==>
                    runs[k] == if k < i && Superseded(store.runs[k], thread, bots) then CancelRun(store.runs[k])
                               else store.runs[k]
        invariant forall t :: 0 <= t < |tasks| ==>
                    tasks[t] == if SupersededTask(store.(runs := store.runs[..i]), thread, bots, t) then Cancelled
                                else store.tasks[t]
      {
        assert store.runs[..i + 1] == store.runs[..i] + [store.runs[i]];
        if Superseded(store.runs[i], thread, bots) {
          tasks := tasks[runs[i].task := Cancelled];
          runs := runs[i := runs[i].(status := Cancelled)];
        }
        i := i + 1;
      }
      store := store.(runs := runs, tasks := tasks);
    }

    /** The send transaction; refused by the unique key when the nonce is taken. */
    method CommitSend(thread: nat, nonce: Option<string>, bots: seq<nat>, stamps: seq<Stamp>)
      returns (receipt: Option<Receipt>)
      requires Invariant(store) && |bots| == |stamps| > 0 && DistinctBots(bots)
      modifies this`store
      ensures Invariant(store)
      ensures receipt.None? <==> NonceTaken(old(store), thread, nonce)
      ensures receipt.None? ==> store == old(store)
      ensures receipt.Some? ==>
                && store == SendEffect(old(store), thread, nonce, bots, stamps)
                && receipt.value == OwnReceipt(old(store), thread, |bots|)
    {
      if NonceTaken(store, thread, nonce) {
        return None;
      }
      ghost var before := store;
      var kept, message, seqNo := |store.runs|, |store.messages|, NextSeq(store, thread);
      store := AddMessage(store, thread, nonce);
      var runIds: set<nat> := {};
      for k := 0 to |bots|
        invariant Creating(before, store, thread, nonce, bots, stamps, k)
        invariant forall i :: i in runIds <==> kept <= i < kept + k
      {
        var task := |store.tasks|;
        store := store.(tasks := store.tasks + [Queued]);
        runIds := runIds + {|store.runs|};
        store := store.(runs := store.runs + [Run(thread, bots[k], Queued, task, message, stamps[k])]);
      }
      ghost var created := store;
      CreatedLinked(before, created, thread, nonce, bots, stamps);
      CancelSupersededQueuedRuns(thread, bots, kept);
      CancelledIsEffect(before, created, store, thread, nonce, bots, stamps);
      ghost var w := Send(thread, nonce, bots, stamps);
      ApplyKeyed(before, w);
      ApplyLinked(before, w);
      receipt := Some(Receipt(seqNo, kept, runIds));
    }

    /** The transaction with its retries, each attempt among the writes of others; only a conflict is tried again. */
    method CommitWithRetry(send: Write, attempts: seq<Attempt>) returns (commit: Commit, ghost at: Log<Write>)
      requires Valid() && send.Send? && |send.bots| == |send.stamps| > 0 && DistinctBots(send.bots)
      requires |attempts| == 3
      modifies this
      ensures Valid() && CommitFits(old(log), log, send, attempts, commit, at)
    {
      commit, at := NotCommitted, log;
      for attempt := 0 to MAX_TRANSACTION_ATTEMPTS
        invariant Valid() && Continues(old(log), log) && Own(log) == Own(old(log)) && commit.NotCommitted?
        invariant forall k :: 0 <= k < attempt ==> attempts[k] == Conflicts
      {
        ghost var before := log;
        commit, at := TryOnce(send, attempts[attempt]);
        if !attempts[attempt].Conflicts? {
          DecidedIs(attempts, attempt);
          FitsLater(old(log), before, log, send, attempts, attempts[attempt], commit, at);
          return;
        }
        ContinuesTransitive(old(log), before, log);
      }
      DecidedIs(attempts, 2);
    }

    method TryOnce(send: Write, attempt: Attempt) returns (commit: Commit, ghost at: Log<Write>)
      requires Valid() && send.Send? && |send.bots| == |send.stamps| > 0 && DistinctBots(send.bots)
      modifies this
      ensures Valid() && CommitFits(old(log), log, send, [attempt], commit, at)
    {
      Interfere(log);
      at := log;
      if attempt.Conflicts? || attempt.Aborts? {
        FailedFits(old(log), log, send, attempt, at);
        return NotCommitted, at;
      }
      commit := CommitOnce(send, attempt);
      ReachedFits(old(log), at, log, send, attempt, commit);
    }

    /** One attempt that reaches its commit; the unique key may still refuse it. */
    method CommitOnce(send: Write, attempt: Attempt) returns (commit: Commit)
      requires Valid() && send.Send? && |send.bots| == |send.stamps| > 0 && DistinctBots(send.bots)
      modifies this
      ensures Valid()
      ensures if NonceTaken(old(store), send.thread, send.nonce) then commit.NotCommitted? && log == old(log)
              else
                && log == Then(old(log), send, true)
                && commit == if attempt.Loses? then Lost
                             else Acknowledged(OwnReceipt(old(store), send.thread, |send.bots|))
    {
      var receipt := CommitSend(send.thread, send.nonce, send.bots, send.stamps);
      if receipt.None? {
        return NotCommitted;
      }
      log := Then(log, send, true);
      commit := if attempt.Loses? then Lost else Acknowledged(receipt.value);
    }

    /** One caller, whatever the others do: look up, commit with retries, look up again. */
    method SendThreadMessage(thread: nat, nonce: Option<string>, bots: seq<nat>, stamps: seq<Stamp>, f: SendFaults)
      returns (outcome: SendOutcome, ghost seen: Seen, ghost looked: Log<Write>, ghost at: Log<Write>,
               ghost mid: Log<Write>)
      requires Valid() && |bots| == |stamps| > 0 && DistinctBots(bots) && |f.attempts| == 3
      modifies this
      ensures Valid()
      ensures SendFits(old(log), log, Send(thread, nonce, bots, stamps), f, outcome, seen, looked, at, mid)
    {
      Interfere(log);
      var existing := ReplayExistingSend(thread, nonce, f.first);
      looked, at, mid := log, log, log;
      seen := Seen(existing, NotCommitted, Found(None));
      if existing.LookupRejects? {
        outcome := Threw;
        return;
      }
      if existing.receipt.Some? {
        outcome := Sent(existing.receipt.value);
        return;
      }
      ghost var commit, winner;
      outcome, commit, winner, at, mid := SendNew(Send(thread, nonce, bots, stamps), f);
      seen := Seen(existing, commit, winner);
    }

    /** The call after a lookup that found nothing. */
    method SendNew(send: Write, f: SendFaults)
      returns (outcome: SendOutcome, ghost commit: Commit, ghost winner: Answer, ghost at: Log<Write>,
               ghost mid: Log<Write>)
      requires Valid() && send.Send? && |send.bots| == |send.stamps| > 0 && DistinctBots(send.bots)
      requires |f.attempts| == 3
      modifies this
      ensures Valid() && CommitFits(old(log), mid, send, f.attempts, commit, at)
      ensures outcome == SendResult(Seen(Found(None), commit, winner))
      ensures if commit.Acknowledged? then mid == log
              else
                && Continues(mid, log) && Own(log) == Own(mid)
                && LookupFits(store, send.thread, send.nonce, f.last, winner)
    {
      var committed;
      committed, at := CommitWithRetry(send, f.attempts);
      commit, winner, mid := committed, Found(None), log;
      if committed.Acknowledged? {
        outcome := Sent(committed.receipt);
        return;
      }
      Interfere(log);
      var found := ReplayExistingSend(send.thread, send.nonce, f.last);
      winner := found;
      outcome := if found.Found? && found.receipt.Some? then Sent(found.receipt.value) else Threw;
    }
  }

  /** The transaction's rows after the first `k` bots. */
  ghost predicate Creating(before: Store, now: Store, thread: nat, nonce: Option<string>, bots: seq<nat>,
                           stamps: seq<Stamp>, k: nat)
    requires |stamps| == |bots| >= k
  {
    && now == AddMessage(before, thread, nonce).(runs := now.runs, tasks := now.tasks)
    && |now.runs| == |before.runs| + k && |now.tasks| == |before.tasks| + k
    && (forall i :: 0 <= i < |before.runs| ==> now.runs[i] == before.runs[i])
    && (forall i :: |before.runs| <= i < |now.runs| ==>
          var j := i - |before.runs|;
          now.runs[i] == Run(thread, bots[j], Queued, |before.tasks| + j, |before.messages|, stamps[j]))
    && (forall t :: 0 <= t < |now.tasks| ==> now.tasks[t] == if t < |before.tasks| then before.tasks[t] else Queued)
  }

  ghost predicate Cancelling(before: Store, now: Store, thread: nat, bots: seq<nat>, kept: nat)
    requires kept <= |before.runs|
  {
    && now == before.(runs := now.runs, tasks := now.tasks)
    && |now.runs| == |before.runs| && |now.tasks| == |before.tasks|
    && (forall i :: 0 <= i < |now.runs| ==>
          now.runs[i] == if i < kept && Superseded(before.runs[i], thread, bots)
                         then CancelRun(before.runs[i]) else before.runs[i])
    && (forall t :: 0 <= t < |now.tasks| ==>
          now.tasks[t] == if SupersededTask(before.(runs := before.runs[..kept]), thread, bots, t)
                          then Cancelled else before.tasks[t])
  }

  lemma CreatedLinked(before: Store, now: Store, thread: nat, nonce: Option<string>, bots: seq<nat>, stamps: seq<Stamp>)
    requires Linked(before) && |stamps| == |bots| && Creating(before, now, thread, nonce, bots, stamps, |bots|)
    ensures Linked(now)
  {
  }

  lemma CancelledIsEffect(before: Store, created: Store, now: Store, thread: nat, nonce: Option<string>, bots: seq<nat>,
                          stamps: seq<Stamp>)
    requires Linked(before) && |stamps| == |bots|
    requires Creating(before, created, thread, nonce, bots, stamps, |bots|)
    requires Cancelling(created, now, thread, bots, |before.runs|)
    ensures now == SendEffect(before, thread, nonce, bots, stamps)
  {
    var effect := SendEffect(before, thread, nonce, bots, stamps);
    assert now.runs == effect.runs;
    assert created.runs[..|before.runs|] == before.runs;
    forall t | 0 <= t < |now.tasks| ensures now.tasks[t] == effect.tasks[t] {
      assert SupersededTask(created.(runs := before.runs), thread, bots, t)
             <==> SupersededTask(before, thread, bots, t);
    }
    assert now.tasks == effect.tasks;
  }

  lemma OnlyHolder(s: Store, thread: nat, nonce: Option<string>, m: nat)
    requires Keyed(s) && nonce.Some? && m < |s.messages| && Batch(s, m) == {}
    requires s.messages[m].thread == thread && s.messages[m].nonce == nonce
    ensures forall r :: !IsReceipt(s, thread, nonce, r)
  {
  }
}
