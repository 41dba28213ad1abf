/**
 The handlers that take, give back and stop a computer, and the screen they connect
 (apps/api/src/router.ts, apps/api/src/brandwell-support.ts, packages/adapters/src/computer-control.ts,
 apps/api/src/computer-screen-session.ts). `Interfere` stands for an await: the writes of every other
 request happen there. How clocks, provider calls, reads, the job queue and the database answer is given
 to each handler; what was written, by whom, and every state the rows went through is recorded.
 */
module ComputerControl {
  import opened Options
  import opened Logs
  import opened ControlLease

  predicate HasActiveComputerControl(row: Row, now: int) {
    row.holder.UserHolder? && row.lease.Some? && row.lease.value.expiresAt > now
  }

  datatype Takeover = Granted(id: nat, expiresAt: int) | NotRunning | Conflict | TakeoverThrew

  datatype SupportTakeover =
    | SupportGranted(session: nat, id: nat, expiresAt: int, replayed: bool)
    | SupportRefused
    | SupportThrew

  datatype Stop = StopDone | StopConflict | StopThrew

  datatype Release = ReleaseOk(replayed: bool) | ReleaseThrew

  datatype Screen = Url(interactive: bool) | NoUrl | ScreenThrew

  /** The screen calls made to the sandbox; a connection with what had been written by then. */
  datatype ScreenCall = Connect(when: Log<Write>) | Close | Revoke(token: nat)

  /** How the database answers a write: it may reject it, with or without having taken it. */
  datatype Reply = Answers | Rejects | Loses

  /** How a takeover's own write, its schedule, the undoing write and the event append answer. */
  datatype GrantFaults = GrantFaults(grant: Reply, scheduleFails: bool, rollback: Reply, appendRejects: bool)

  datatype ExpiryFaults = ExpiryFaults(scheduleFails: bool, claim: Reply, revokeFails: bool, finalize: Reply)

  /** All that a takeover asks for, in the order it asks: reads, schedules of leases that exist, and its writes. */
  datatype TakeFaults = TakeFaults(
    readRejects: bool,
    revokeFails: bool,
    clear: Reply,
    rereadRejects: bool,
    expiry: ExpiryFaults,
    againRejects: bool,
    executionRejects: bool,
    grant: GrantFaults,
    lookupRejects: bool,
    queueFails: bool)

  /** The clock at a takeover's first read, at an expiry, after it, at the execution check, and when it has lost. */
  datatype Clocks = Clocks(read: int, expiry: int, again: int, checked: int, joined: int)

  /** How the guards, the provider and the database answer a stop, in the order they are asked. */
  datatype StopFaults = StopFaults(
    busy: bool,
    claim: Reply,
    readRejects: bool,
    otherRun: bool,
    restore: Reply,
    deleteRejects: bool,
    providerFails: bool,
    finishRejects: bool,
    mark: Reply,
    afterRejects: bool)

  datatype ReleaseFaults = ReleaseFaults(readRejects: bool, revokeFails: bool, finalize: Reply, close: Reply)

  datatype ScreenFaults = ScreenFaults(connectFails: bool, checkRejects: bool, supportRejects: bool, revokeFails: bool)

  predicate HasSession(db: Db, operator: nat, lease: nat, session: nat) {
    session < |db.sessions| && db.sessions[session] == Session(operator, lease, Active)
  }

  predicate ActiveFor(session: Session, operator: nat) {
    session.operator == operator && session.status.Active?
  }

  /** The row `connectLeasedComputerScreen` looks for. */
  predicate Authorizes(db: Db, bot: nat, token: nat, now: int) {
    && db.row.power.Running? && db.row.holder.UserHolder?
    && Holds(db, token) && db.row.lease.value.bot == bot && db.row.lease.value.expiresAt > now
  }

  predicate SessionAllows(db: Db, support: Option<nat>) {
    support.Some? ==> support.value < |db.sessions| && db.sessions[support.value].status.Active?
  }

  /** From `a` to `b` only other requests wrote. */
  predicate OthersOnly(a: Log<Write>, b: Log<Write>) {
    Recorded(b) && Continues(a, b) && Own(b) == Own(a)
  }

  /** A stop's claim survives the writes of others, and none of them grants control. */
  predicate Undisturbed(a: Db, b: Db, stop: Option<nat>) {
    stop.Some? ==> (b.stopper == stop <==> a.stopper == stop) && (a.stopper == stop ==> b.issued == a.issued)
  }

  // ----- how a takeover ends

  /** The caller is told of a failure. */
  predicate Fails(f: GrantFaults) {
    !f.grant.Answers? || f.scheduleFails || f.appendRejects
  }

  /** The takeover takes its own lease back. */
  predicate Undoes(f: GrantFaults) {
    f.grant.Answers? && f.scheduleFails && !f.rollback.Rejects?
  }

  /** The writes of a takeover that got its lease. */
  function GrantWrites(lease: Lease, f: GrantFaults): seq<Write> {
    [Grant(lease, None)] + if Undoes(f) then [Clear(lease.id)] else []
  }

  function SupportWrites(lease: Lease, operator: nat, session: nat, f: GrantFaults): seq<Write> {
    [Grant(lease, Some(operator))] + if Undoes(f) then [SupportRollback(lease.id, session)] else []
  }

  /**
   A failed takeover leaves the user in control exactly when the grant took effect although it was rejected,
   or the schedule failed and so did undoing it, or the schedule was made and the event could not be appended.
   */
  lemma FailedTakeoverLeavesItsLease(db: Db, lease: Lease, f: GrantFaults)
    requires Invariant(db) && db.row.power.Running? && db.row.lease.None? && lease.id !in db.issued
    ensures Runs(db, GrantWrites(lease, f))
    ensures var after := Outcome(db, GrantWrites(lease, f));
            && (Holds(after, lease.id) <==> !Undoes(f))
            && (Fails(f) && Holds(after, lease.id) <==>
                || !f.grant.Answers?
                || (f.scheduleFails && f.rollback.Rejects?)
                || (!f.scheduleFails && f.appendRejects))
  {
    var granted := Apply(db, Grant(lease, None));
    if Undoes(f) {
      Begins(granted, Clear(lease.id), []);
    }
    Begins(db, Grant(lease, None), if Undoes(f) then [Clear(lease.id)] else []);
  }

  /** A failed support takeover leaves lease and active session together, in the same cases. */
  lemma FailedSupportTakeoverLeavesBoth(db: Db, lease: Lease, operator: nat, f: GrantFaults)
    requires Invariant(db) && db.row.power.Running? && db.row.lease.None? && lease.id !in db.issued
    ensures var writes := SupportWrites(lease, operator, |db.sessions|, f);
            && Runs(db, writes)
            && (Holds(Outcome(db, writes), lease.id) <==> !Undoes(f))
            && (HasSession(Outcome(db, writes), operator, lease.id, |db.sessions|) <==> !Undoes(f))
  {
    var granted := Apply(db, Grant(lease, Some(operator)));
    var undo := SupportRollback(lease.id, |db.sessions|);
    if Undoes(f) {
      Begins(granted, undo, []);
    }
    Begins(db, Grant(lease, Some(operator)), if Undoes(f) then [undo] else []);
  }

  /**
   From a fresh computer: the schedule is made, the append rejects, and the caller who was told of a failure
   holds it.
   */
  lemma RejectedAppendLeavesControl()
    ensures var f := GrantFaults(Answers, false, Answers, true);
            && Fails(f) && Runs(Fresh, GrantWrites(Lease(0, 7, None, 100), f))
            && Outcome(Fresh, GrantWrites(Lease(0, 7, None, 100), f)).row
               == Row(Running, UserHolder, Some(Lease(0, 7, None, 100)))
  {
    var f := GrantFaults(Answers, false, Answers, true);
    FailedTakeoverLeavesItsLease(Fresh, Lease(0, 7, None, 100), f);
    Begins(Fresh, Grant(Lease(0, 7, None, 100), None), []);
  }

  // ----- takeovers

  /** What a caller that lost the race is told of the row it reads. */
  function JoinAnswer(row: Row, now: int): Takeover {
    if HasActiveComputerControl(row, now) then Granted(row.lease.value.id, row.lease.value.expiresAt) else Conflict
  }

  function TakeoverAnswer(lease: Lease, f: GrantFaults): Takeover {
    if Fails(f) then TakeoverThrew else Granted(lease.id, lease.expiresAt)
  }

  function SupportAnswer(lease: Lease, session: nat, f: GrantFaults): SupportTakeover {
    if Fails(f) then SupportThrew else SupportGranted(session, lease.id, lease.expiresAt, false)
  }

  predicate OnlyExpires(writes: seq<Write>, id: nat) {
    forall w :: w in writes ==> (w.ExpiryClaim? && w.id == id) || (w.Finalize? && w.id == id && w.holder.NoHolder?)
  }

  /** Leases are claimed for expiry and cleared by name, never granted. */
  predicate EndsLeases(writes: seq<Write>) {
    forall w :: w in writes ==> w.Clear? || w.ExpiryClaim? || w.Finalize?
  }

  predicate ExpiryFails(f: ExpiryFaults) {
    f.scheduleFails || !f.claim.Answers? || f.revokeFails || !f.finalize.Answers?
  }

  /** Something fails before a takeover gets to its execution check. */
  predicate RoomFails(f: TakeFaults) {
    f.revokeFails || !f.clear.Answers? || f.rereadRejects || ExpiryFails(f.expiry) || f.againRejects
  }

  /** The grant found a running computer without a lease. */
  predicate Won(tried: Log<Write>, lease: Lease, operator: Option<nat>)
    requires Recorded(tried)
  {
    Matches(State(tried), Grant(lease, operator))
  }

  /** At `tried` the handler sent a grant of a new lease for `bot`, before `b`. */
  predicate SentGrant(a: Log<Write>, tried: Log<Write>, b: Log<Write>, lease: Lease, bot: nat, operator: Option<nat>) {
    && Recorded(tried) && Continues(a, tried) && Continues(Then(tried, Grant(lease, operator), true), b)
    && lease.bot == bot && lease.id !in State(tried).issued
  }

  /** No grant is sent, and why. */
  predicate NotTried(blocked: bool, f: TakeFaults) {
    f.executionRejects || blocked || f.grant.grant.Rejects?
  }

  /**
   All of the second half of a client takeover, from `a` to `b`: its own writes, and its answer. Its grant of
   `lease` is sent at `tried`, and `told` is the instant whose lease it tells a caller that lost.
   */
  ghost predicate GrantFits(a: Log<Write>, b: Log<Write>, bot: nat, clocks: Clocks, blocked: bool, f: TakeFaults,
                            outcome: Takeover, tried: Log<Write>, lease: Lease, told: Log<Write>)
  {
    && Recorded(b) && Continues(a, b)
    && if NotTried(blocked, f) then
         Own(b) == Own(a) && outcome == if !f.executionRejects && blocked then Conflict else TakeoverThrew
       else
         && SentGrant(a, tried, b, lease, bot, None)
         && if Won(tried, lease, None) then
              && Own(b) == Own(a) + GrantWrites(lease, f.grant)
              && outcome == TakeoverAnswer(lease, f.grant)
              && (Undoes(f.grant) ==> lease.id in State(b).retired)
            else
              && Own(b) == Own(a) + [Grant(lease, None)]
              && Recorded(told) && Continues(Then(tried, Grant(lease, None), true), told) && Continues(told, b)
              && outcome == if f.grant.grant.Loses? then TakeoverThrew else LoserAnswer(State(told), clocks.joined, f)
  }

  /** What a caller that lost is told, and the bot of that lease. */
  function LoserAnswer(db: Db, now: int, f: TakeFaults): Takeover {
    if f.lookupRejects then TakeoverThrew
    else if JoinAnswer(db.row, now).Granted? && f.queueFails then TakeoverThrew
    else JoinAnswer(db.row, now)
  }

  /** The instant whose lease a granted takeover tells its caller. */
  function Told(tried: Log<Write>, lease: Lease, told: Log<Write>): Log<Write>
    requires Recorded(tried)
  {
    if Won(tried, lease, None) then Then(tried, Grant(lease, None), true) else told
  }

  /**
   A granted takeover tells a lease that the user holds at that instant, and another bot's exactly if it lost
   to one.
   */
  lemma ToldAnothersLeaseExactly(a: Log<Write>, b: Log<Write>, bot: nat, clocks: Clocks, blocked: bool, f: TakeFaults,
                                 outcome: Takeover, tried: Log<Write>, lease: Lease, told: Log<Write>)
    requires GrantFits(a, b, bot, clocks, blocked, f, outcome, tried, lease, told) && outcome.Granted?
    ensures Recorded(tried)
    ensures var at := Told(tried, lease, told);
            && Continues(a, at) && Continues(at, b) && Recorded(at)
            && Holds(State(at), outcome.id) && State(at).row.holder.UserHolder?
            && State(at).row.lease.value.expiresAt == outcome.expiresAt
            && (State(at).row.lease.value.bot != bot <==>
                !Won(tried, lease, None) && JoinAnswer(State(told).row, clocks.joined).Granted?
                && State(told).row.lease.value.bot != bot)
  {
    var sent := Then(tried, Grant(lease, None), true);
    RecordedEvolves(sent, b);
    ContinuesTransitive(a, tried, sent);
    if !Won(tried, lease, None) {
      ContinuesTransitive(a, sent, told);
    }
  }

  /** Another request ended the lease after `a` and by `b`. */
  predicate EndedByOthers(a: Log<Write>, b: Log<Write>, id: nat)
    requires Recorded(b)
    decreases b
  {
    && a != b && b.Then?
    && ((!b.own && Holds(State(b.before), id) && !Holds(State(b), id)) || EndedByOthers(a, b.before, id))
  }

  lemma {:induction false} StaysUnlessEnded(a: Log<Write>, b: Log<Write>, id: nat)
    requires Recorded(b) && Continues(a, b) && Own(b) == Own(a)
    requires Recorded(a) && Holds(State(a), id)
    ensures Holds(State(b), id) || EndedByOthers(a, b, id)
    decreases b
  {
    if a != b {
      OwnGrows(a, b.before);
      StaysUnlessEnded(a, b.before, id);
    }
  }

  /** What the second half of a client takeover must write and answer if its grant is sent and matches. */
  lemma WinnerMust(a: Log<Write>, b: Log<Write>, bot: nat, clocks: Clocks, blocked: bool, f: TakeFaults,
                   outcome: Takeover, tried: Log<Write>, lease: Lease, told: Log<Write>)
    requires GrantFits(a, b, bot, clocks, blocked, f, outcome, tried, lease, told)
    requires !f.executionRejects && !blocked && f.grant.grant != Rejects && Recorded(tried)
    requires State(tried).row.power == Running && State(tried).row.holder != UserHolder
    requires State(tried).row.lease == None
    ensures outcome == if f.grant.grant == Answers && !f.grant.scheduleFails && !f.grant.appendRejects
                       then Granted(lease.id, lease.expiresAt) else TakeoverThrew
    ensures Own(b) == Own(a) + if f.grant.grant == Answers && f.grant.scheduleFails && f.grant.rollback != Rejects
                               then [Grant(lease, None), Clear(lease.id)] else [Grant(lease, None)]
  {
  }

  /**
   A caller told that it has control, after its own grant matched, did not take it back: it holds its lease at
   the end unless another request ended it. One that took it back is told of a failure, and the lease is gone.
   */
  lemma GrantedKeepsItsLease(a: Log<Write>, b: Log<Write>, bot: nat, clocks: Clocks, blocked: bool, f: TakeFaults,
                             outcome: Takeover, tried: Log<Write>, lease: Lease, told: Log<Write>)
    requires GrantFits(a, b, bot, clocks, blocked, f, outcome, tried, lease, told) && Recorded(tried)
    requires State(tried).row.power == Running && State(tried).row.holder != UserHolder
    requires State(tried).row.lease == None
    ensures outcome.Granted? ==>
              && Own(b) == Own(a) + [Grant(lease, None)] && outcome == Granted(lease.id, lease.expiresAt)
              && (Holds(State(b), lease.id) || EndedByOthers(Then(tried, Grant(lease, None), true), b, lease.id))
    ensures Own(b) == Own(a) + [Grant(lease, None), Clear(lease.id)] ==>
              outcome == TakeoverThrew && !Holds(State(b), lease.id) && lease.id in State(b).retired
  {
    if !NotTried(blocked, f) {
      var sent := Then(tried, Grant(lease, None), true);
      WinnerMust(a, b, bot, clocks, blocked, f, outcome, tried, lease, told);
      RecordedEvolves(sent, b);
      OwnGrows(a, tried);
      OwnGrows(sent, b);
      if outcome.Granted? {
        assert Own(sent) == Own(tried) + [Grant(lease, None)];
        StaysUnlessEnded(sent, b, lease.id);
      }
    }
  }

  /** What it must write and answer if it sends no grant, or one that does not match. */
  lemma LoserMust(a: Log<Write>, b: Log<Write>, bot: nat, clocks: Clocks, blocked: bool, f: TakeFaults,
                  outcome: Takeover, tried: Log<Write>, lease: Lease, told: Log<Write>)
    requires GrantFits(a, b, bot, clocks, blocked, f, outcome, tried, lease, told)
    ensures f.executionRejects || (!blocked && f.grant.grant == Rejects) ==>
              Own(b) == Own(a) && outcome == TakeoverThrew
    ensures !f.executionRejects && blocked ==> Own(b) == Own(a) && outcome == Conflict
    ensures !f.executionRejects && !blocked && f.grant.grant != Rejects ==> Recorded(tried)
    ensures !f.executionRejects && !blocked && f.grant.grant != Rejects
            && (State(tried).row.power != Running || State(tried).row.holder == UserHolder
                || State(tried).row.lease.Some?) ==>
              && Own(b) == Own(a) + [Grant(lease, None)] && Recorded(told)
              && var row := State(told).row;
                 var controlled := row.holder == UserHolder && row.lease.Some?
                                   && row.lease.value.expiresAt > clocks.joined;
                 outcome == if f.grant.grant == Loses || f.lookupRejects || (controlled && f.queueFails)
                            then TakeoverThrew
                            else if controlled then Granted(row.lease.value.id, row.lease.value.expiresAt)
                            else Conflict
  {
  }

  /** All of the second half of a support takeover; its grant comes with a session. */
  ghost predicate SupportFits(a: Log<Write>, b: Log<Write>, bot: nat, operator: nat, blocked: bool, f: TakeFaults,
                              outcome: SupportTakeover, tried: Log<Write>, lease: Lease)
  {
    && Recorded(b) && Continues(a, b)
    && if NotTried(blocked, f) then
         Own(b) == Own(a) && outcome == if !f.executionRejects && blocked then SupportRefused else SupportThrew
       else
         && SentGrant(a, tried, b, lease, bot, Some(operator))
         && var session := |State(tried).sessions|;
            if Won(tried, lease, Some(operator)) then
              && Own(b) == Own(a) + SupportWrites(lease, operator, session, f.grant)
              && outcome == SupportAnswer(lease, session, f.grant)
              && (Undoes(f.grant) ==> TakenBack(State(b), lease, operator))
            else
              && Own(b) == Own(a) + [Grant(lease, Some(operator))]
              && outcome == if f.grant.grant.Loses? then SupportThrew else SupportRefused
  }

  /** The lease is gone for good, and no active session has it. */
  ghost predicate TakenBack(db: Db, lease: Lease, operator: nat) {
    lease.id in db.retired && forall i :: !HasSession(db, operator, lease.id, i)
  }

  /** What the second half of a support takeover must write and answer. */
  lemma SupportMust(a: Log<Write>, b: Log<Write>, bot: nat, operator: nat, blocked: bool, f: TakeFaults,
                    outcome: SupportTakeover, tried: Log<Write>, lease: Lease)
    requires SupportFits(a, b, bot, operator, blocked, f, outcome, tried, lease)
    ensures f.executionRejects || (!blocked && f.grant.grant == Rejects) ==> Own(b) == Own(a) && outcome == SupportThrew
    ensures !f.executionRejects && blocked ==> Own(b) == Own(a) && outcome == SupportRefused
    ensures !f.executionRejects && !blocked && f.grant.grant != Rejects ==> Recorded(tried)
    ensures !f.executionRejects && !blocked && f.grant.grant != Rejects ==>
              var row, session, sent := State(tried).row, |State(tried).sessions|, Grant(lease, Some(operator));
              if row.power == Running && row.holder != UserHolder && row.lease == None then
                && outcome == (if f.grant.grant == Answers && !f.grant.scheduleFails && !f.grant.appendRejects
                               then SupportGranted(session, lease.id, lease.expiresAt, false) else SupportThrew)
                && Own(b) == Own(a)
                             + if f.grant.grant == Answers && f.grant.scheduleFails && f.grant.rollback != Rejects
                               then [sent, SupportRollback(lease.id, session)] else [sent]
              else
                Own(b) == Own(a) + [sent] && outcome == if f.grant.grant == Loses then SupportThrew else SupportRefused
  {
  }

  /**
   An operator told that it has control did not take it back: it holds its lease at the end unless another request
   ended it, and its session is there. One that took it back is told of a failure.
   */
  lemma SupportGrantedKeepsItsLease(a: Log<Write>, b: Log<Write>, bot: nat, operator: nat, blocked: bool, f: TakeFaults,
                                    outcome: SupportTakeover, tried: Log<Write>, lease: Lease)
    requires SupportFits(a, b, bot, operator, blocked, f, outcome, tried, lease) && Recorded(tried)
    ensures outcome.SupportGranted? ==>
              && Own(b) == Own(a) + [Grant(lease, Some(operator))]
              && outcome == SupportGranted(|State(tried).sessions|, lease.id, lease.expiresAt, false)
              && (Holds(State(b), lease.id)
                  || EndedByOthers(Then(tried, Grant(lease, Some(operator)), true), b, lease.id))
              && outcome.session < |State(b).sessions|
              && State(b).sessions[outcome.session].operator == operator
              && State(b).sessions[outcome.session].lease == lease.id
    ensures Own(b) == Own(a) + [Grant(lease, Some(operator)), SupportRollback(lease.id, |State(tried).sessions|)] ==>
              && outcome == SupportThrew && !Holds(State(b), lease.id)
              && forall i :: 0 <= i < |State(b).sessions| ==>
                   State(b).sessions[i] != Session(operator, lease.id, Active)
  {
    if !NotTried(blocked, f) {
      SupportMust(a, b, bot, operator, blocked, f, outcome, tried, lease);
      var sent := Then(tried, Grant(lease, Some(operator)), true);
      RecordedEvolves(sent, b);
      OwnGrows(a, tried);
      OwnGrows(sent, b);
      if outcome.SupportGranted? {
        assert Own(sent) == Own(tried) + [Grant(lease, Some(operator))];
        StaysUnlessEnded(sent, b, lease.id);
        assert State(sent).sessions[|State(tried).sessions|] == Session(operator, lease.id, Active);
        assert SameSession(State(sent).sessions[outcome.session], State(b).sessions[outcome.session]);
      } else if Own(b) == Own(a) + [Grant(lease, Some(operator)), SupportRollback(lease.id, |State(tried).sessions|)] {
        forall i | 0 <= i < |State(b).sessions| ensures State(b).sessions[i] != Session(operator, lease.id, Active) {
          assert !HasSession(State(b), operator, lease.id, i);
        }
      }
    }
  }

  /** While somebody has control, its lease is told to the operator whose active session it has, and to nobody else. */
  ghost predicate Replays(db: Db, lease: Lease, operator: nat, f: TakeFaults, outcome: SupportTakeover) {
    match outcome
    case SupportThrew => f.lookupRejects
    case SupportRefused => !f.lookupRejects && forall i :: !HasSession(db, operator, lease.id, i)
    case SupportGranted(session, id, expiresAt, replayed) =>
      && !f.lookupRejects && HasSession(db, operator, lease.id, session)
      && id == lease.id && expiresAt == lease.expiresAt && replayed
  }

  /** What an operator who finds somebody in control is told. */
  lemma ReplayTells(db: Db, lease: Lease, operator: nat, f: TakeFaults, outcome: SupportTakeover)
    requires Replays(db, lease, operator, f, outcome)
    ensures outcome == SupportThrew <==> f.lookupRejects
    ensures outcome.SupportGranted? ==>
              && outcome.session < |db.sessions| && outcome.replayed
              && db.sessions[outcome.session] == Session(operator, lease.id, Active)
              && outcome.id == lease.id && outcome.expiresAt == lease.expiresAt
    ensures outcome == SupportRefused ==>
              forall i :: 0 <= i < |db.sessions| ==> db.sessions[i] != Session(operator, lease.id, Active)
  {
    if outcome == SupportRefused {
      forall i | 0 <= i < |db.sessions| ensures db.sessions[i] != Session(operator, lease.id, Active) {
        assert !HasSession(db, operator, lease.id, i);
      }
    }
  }

  /** Bot 1's caller loses the race to bot 2's, and is told bot 2's lease. */
  lemma LostRaceTellsAnothersLease()
    ensures var taken := Apply(Fresh, Grant(Lease(0, 2, None, 100), None));
            && !Matches(taken, Grant(Lease(1, 1, None, 100), None))
            && JoinAnswer(taken.row, 50) == Granted(0, 100) && taken.row.lease.value.bot == 2
  {
  }

  // ----- releases

  /** The operator's latest active session. */
  function Latest(sessions: seq<Session>, operator: nat): Option<nat> {
    if sessions == [] then None
    else if ActiveFor(sessions[|sessions| - 1], operator) then Some(|sessions| - 1)
    else Latest(sessions[..|sessions| - 1], operator)
  }

  lemma {:induction false} LatestExactly(sessions: seq<Session>, operator: nat)
    ensures match Latest(sessions, operator)
            case None =>
              forall k :: 0 <= k < |sessions| ==> sessions[k].operator != operator || sessions[k].status != Active
            case Some(i) =>
              && i < |sessions| && sessions[i].operator == operator && sessions[i].status == Active
              && forall k :: i < k < |sessions| ==> sessions[k].operator != operator || sessions[k].status != Active
  {
    if sessions != [] {
      LatestExactly(sessions[..|sessions| - 1], operator);
    }
  }

  function GiveBackWrite(lease: Lease, bot: nat): Write {
    Finalize(lease.id, bot, lease.run, if lease.run.Some? then BotHolder else NoHolder)
  }

  /**
   All of a support release, from `a` to `b`. The computer is read at `a`, the session at `looked`, and the
   clearing write is sent at `cleared`.
   */
  ghost predicate ReleaseFits(a: Log<Write>, b: Log<Write>, bot: nat, operator: nat, f: ReleaseFaults, outcome: Release,
                              looked: Log<Write>, cleared: Log<Write>)
  {
    && Recorded(a) && Recorded(b) && Recorded(looked) && Continues(a, looked) && Continues(looked, b)
    && var sessions := State(looked).sessions;
       var found := Latest(sessions, operator);
       if f.readRejects || found.None? then
         Own(b) == Own(a) && outcome == if f.readRejects then ReleaseThrew else ReleaseOk(true)
       else
         found.value < |sessions| && ReleaseOf(a, b, bot, found.value, sessions[found.value].lease, f, outcome, cleared)
  }

  ghost predicate ReleaseOf(a: Log<Write>, b: Log<Write>, bot: nat, session: nat, id: nat, f: ReleaseFaults,
                            outcome: Release, cleared: Log<Write>)
    requires Recorded(a) && Recorded(b)
  {
    if !Holds(State(a), id) then
      && Own(b) == Own(a) + ClosingWrite(session, f)
      && outcome == if f.close.Answers? then ReleaseOk(true) else ReleaseThrew
    else
      GivenBack(a, b, session, State(a).row.lease.value, bot, f, outcome, cleared)
  }

  function ClosingWrite(session: nat, f: ReleaseFaults): seq<Write> {
    if f.close.Rejects? then [] else [CloseSession(session)]
  }

  /** The clearing write is sent unless the revoke fails; the session is closed if that write matched. */
  ghost predicate GivenBack(a: Log<Write>, b: Log<Write>, session: nat, lease: Lease, bot: nat, f: ReleaseFaults,
                            outcome: Release, cleared: Log<Write>)
  {
    var clear := GiveBackWrite(lease, bot);
    if f.revokeFails || f.finalize.Rejects? then
      Own(b) == Own(a) && outcome == ReleaseThrew
    else
      && Recorded(cleared) && Continues(a, cleared) && Continues(Then(cleared, clear, true), b)
      && if f.finalize.Answers? && Matches(State(cleared), clear) then
           && Own(b) == Own(a) + [clear] + ClosingWrite(session, f)
           && outcome == if f.close.Answers? then ReleaseOk(false) else ReleaseThrew
         else
           Own(b) == Own(a) + [clear] && outcome == ReleaseThrew
  }

  /** A release that finds no active session of the operator has nothing to do; otherwise it gives back the latest. */
  lemma ReleaseFinds(a: Log<Write>, b: Log<Write>, bot: nat, operator: nat, f: ReleaseFaults, outcome: Release,
                     looked: Log<Write>, cleared: Log<Write>, i: nat)
    requires ReleaseFits(a, b, bot, operator, f, outcome, looked, cleared)
    requires i < |State(looked).sessions|
    requires forall k :: i < k < |State(looked).sessions| ==>
               State(looked).sessions[k].operator != operator || State(looked).sessions[k].status != Active
    ensures f.readRejects ==> Own(b) == Own(a) && outcome == ReleaseThrew
    ensures var session := State(looked).sessions[i];
            !f.readRejects && session.operator == operator && session.status == Active ==>
              ReleaseOf(a, b, bot, i, session.lease, f, outcome, cleared)
  {
    LatestExactly(State(looked).sessions, operator);
  }

  lemma NothingToRelease(a: Log<Write>, b: Log<Write>, bot: nat, operator: nat, f: ReleaseFaults, outcome: Release,
                         looked: Log<Write>, cleared: Log<Write>)
    requires ReleaseFits(a, b, bot, operator, f, outcome, looked, cleared)
    requires forall k :: 0 <= k < |State(looked).sessions| ==>
               State(looked).sessions[k].operator != operator || State(looked).sessions[k].status != Active
    ensures Own(b) == Own(a) && outcome == if f.readRejects then ReleaseThrew else ReleaseOk(true)
  {
    LatestExactly(State(looked).sessions, operator);
  }

  /** What a release that found the operator's session `session` of the lease `id` must write and answer. */
  lemma ReleaseMust(a: Log<Write>, b: Log<Write>, bot: nat, session: nat, id: nat, f: ReleaseFaults, outcome: Release,
                    cleared: Log<Write>)
    requires Recorded(a) && Recorded(b) && ReleaseOf(a, b, bot, session, id, f, outcome, cleared)
    ensures var close := if f.close == Rejects then [] else [CloseSession(session)];
            if State(a).row.lease == None || State(a).row.lease.value.id != id then
              Own(b) == Own(a) + close && outcome == if f.close == Answers then ReleaseOk(true) else ReleaseThrew
            else if f.revokeFails || f.finalize == Rejects then Own(b) == Own(a) && outcome == ReleaseThrew
            else
              var lease := State(a).row.lease.value;
              var clear := Finalize(id, bot, lease.run, if lease.run == None then NoHolder else BotHolder);
              && Recorded(cleared)
              && var now := State(cleared).row.lease;
                 if f.finalize == Answers && now.Some? && now.value.id == id && now.value.bot == bot
                    && now.value.run == lease.run
                 then
                   && Own(b) == Own(a) + [clear] + close
                   && outcome == if f.close == Answers then ReleaseOk(false) else ReleaseThrew
                 else Own(b) == Own(a) + [clear] && outcome == ReleaseThrew
  {
  }

  /**
   A release that is answered says `replayed` exactly if the lease was not in the row it read, and leaves
   the lease in the row exactly if it was granted after that and nobody else ended it.
   */
  lemma ReleaseLeavesALeaseExactly(a: Log<Write>, b: Log<Write>, bot: nat, operator: nat, f: ReleaseFaults,
                                   outcome: Release, looked: Log<Write>, cleared: Log<Write>)
    requires ReleaseFits(a, b, bot, operator, f, outcome, looked, cleared)
    requires Latest(State(looked).sessions, operator).Some? && outcome.ReleaseOk?
    ensures var session := Latest(State(looked).sessions, operator).value;
            && session < |State(looked).sessions|
            && var id := State(looked).sessions[session].lease;
               && (outcome.replayed <==> !Holds(State(a), id))
               && (Holds(State(b), id) <==> id !in State(a).issued && id !in State(b).retired)
  {
    var session := Latest(State(looked).sessions, operator).value;
    var id := State(looked).sessions[session].lease;
    RecordedEvolves(a, looked);
    RecordedEvolves(looked, b);
    ContinuesTransitive(a, looked, b);
    RecordedEvolves(a, b);
    if Holds(State(a), id) {
      RecordedEvolves(Then(cleared, GiveBackWrite(State(a).row.lease.value, bot), true), b);
    }
  }

  /** A session whose lease was granted after the computer was read is closed while the user keeps control. */
  lemma ReleaseClosesANewerSession()
    ensures var granted := Apply(Fresh, Grant(Lease(0, 7, None, 100), Some(3)));
            && Fresh.row.lease.None? && HasSession(granted, 3, 0, 0)
            && var closed := Apply(granted, CloseSession(0));
               closed.row.holder.UserHolder? && Holds(closed, 0) && closed.sessions == [Session(3, 0, Released)]
  {
  }

  // ----- stops

  /** What the caller of a stop that got its claim is told. */
  function StopOutcome(f: StopFaults): Stop {
    if f.claim.Loses? || f.readRejects then StopThrew
    else if f.otherRun then (if f.restore.Answers? then StopConflict else StopThrew)
    else if f.deleteRejects || f.providerFails || f.finishRejects || f.afterRejects then StopThrew
    else StopDone
  }

  /** A statement fails where nothing, or a write that is itself rejected, would clean up. */
  predicate Strands(f: StopFaults) {
    || f.claim.Loses?
    || f.readRejects
    || (f.otherRun && f.restore.Rejects?)
    || (!f.otherRun && (f.deleteRejects || ((f.providerFails || f.finishRejects) && f.mark.Rejects?)))
  }

  /** The last write of a stop that had read `power`, or the mark that it made none. */
  function EndWrite(me: nat, power: Power, f: StopFaults): Write {
    if Strands(f) then StopAbandon(me)
    else if f.otherRun then StopRestore(me, power)
    else if f.providerFails || f.finishRejects then StopFail(me)
    else StopFinish(me)
  }

  /** The row a stop with its claim ends with. */
  predicate Ended(claim: Db, end: Db, f: StopFaults, power: Power) {
    && end.issued == claim.issued
    && (end.row.power.Suspending? <==> Strands(f) || (f.otherRun && power.Suspending?))
    && (!Strands(f) && f.otherRun ==> end.row.power == power)
    && (!Strands(f) && !f.otherRun && (f.providerFails || f.finishRejects) ==> end.row.power.Error?)
    && (!Strands(f) && !f.otherRun && !f.providerFails && !f.finishRejects ==>
          && end.row == Row(Stopped, NoHolder, None)
          && (claim.row.lease.Some? ==> claim.row.lease.value.id in end.retired))
  }

  /** All of a stop, from `a` to `b`; it sends its claim at `claimed`. */
  ghost predicate StopFits(a: Log<Write>, b: Log<Write>, me: nat, f: StopFaults, outcome: Stop, claimed: Log<Write>) {
    && Recorded(a) && Recorded(b) && Continues(a, b)
    && if f.busy || f.claim.Rejects? then
         Own(b) == Own(a) && outcome == if f.claim.Answers? then StopConflict else StopThrew
       else
         var claim := Then(claimed, StopClaim(me), true);
         && Recorded(claim) && Continues(a, claimed) && Continues(claim, b)
         && if State(claimed).row.power.Suspending? then
              Own(b) == Own(a) + [StopClaim(me)] && outcome == if f.claim.Answers? then StopConflict else StopThrew
            else
              && Own(b) == Own(a) + [StopClaim(me), EndWrite(me, State(a).row.power, f)]
              && outcome == StopOutcome(f) && Ended(State(claim), State(b), f, State(a).row.power)
  }

  /** What the caller of a stop is told, and the stop's writes. */
  lemma StopMust(a: Log<Write>, b: Log<Write>, me: nat, f: StopFaults, outcome: Stop, claimed: Log<Write>)
    requires StopFits(a, b, me, f, outcome, claimed)
    ensures f.busy || f.claim == Rejects ==>
              Own(b) == Own(a) && outcome == if f.claim == Answers then StopConflict else StopThrew
    ensures !f.busy && f.claim != Rejects ==> Recorded(claimed)
    ensures !f.busy && f.claim != Rejects && State(claimed).row.power == Suspending ==>
              Own(b) == Own(a) + [StopClaim(me)] && outcome == if f.claim == Answers then StopConflict else StopThrew
    ensures !f.busy && f.claim != Rejects && State(claimed).row.power != Suspending ==>
              && |Own(b)| == |Own(a)| + 2 && Own(b)[..|Own(a)| + 1] == Own(a) + [StopClaim(me)]
              && var last := Own(b)[|Own(a)| + 1];
                 && (outcome == StopDone ==> last == StopFinish(me) && State(b).row == Row(Stopped, NoHolder, None))
                 && (outcome == StopConflict ==> last == StopRestore(me, State(a).row.power)
                                                 && State(b).row.power == State(a).row.power)
                 && (last == StopFail(me) || last == StopAbandon(me) ==> outcome == StopThrew)
    ensures !f.busy && f.claim != Rejects && State(claimed).row.power != Suspending ==>
              && (outcome == StopDone <==>
                  && f.claim == Answers && !f.readRejects && !f.otherRun && !f.deleteRejects && !f.providerFails
                  && !f.finishRejects && !f.afterRejects)
              && (outcome == StopConflict <==>
                  f.claim == Answers && !f.readRejects && f.otherRun && f.restore == Answers)
              && Recorded(Then(claimed, StopClaim(me), true))
              && State(b).issued == State(Then(claimed, StopClaim(me), true)).issued
              && (State(b).row.power == Suspending <==>
                  || f.claim == Loses || f.readRejects
                  || (f.otherRun && (f.restore == Rejects || State(a).row.power == Suspending))
                  || (!f.otherRun && f.deleteRejects)
                  || (!f.otherRun && (f.providerFails || f.finishRejects) && f.mark == Rejects))
              && (f.claim == Answers && !f.readRejects && !f.otherRun && !f.deleteRejects ==>
                    f.mark != Rejects && (f.providerFails || f.finishRejects) ==> State(b).row.power == Error)
  {
  }

  // ----- screens

  /** The check that follows a connection passes: the row at `at`, and then the session at `allowed`. */
  predicate Permits(at: Db, allowed: Db, bot: nat, token: nat, support: Option<nat>, now: int, f: ScreenFaults) {
    && !f.checkRejects && Authorizes(at, bot, token, now)
    && (support.Some? ==> !f.supportRejects && SessionAllows(allowed, support))
  }

  predicate CheckThrows(at: Db, bot: nat, token: nat, support: Option<nat>, now: int, f: ScreenFaults) {
    f.checkRejects || (Authorizes(at, bot, token, now) && support.Some? && f.supportRejects)
  }

  /** What the check after a connection demands: all of it, and of no session if none was asked for. */
  lemma PermitsExactly(at: Db, allowed: Db, bot: nat, token: nat, support: Option<nat>, now: int, f: ScreenFaults)
    ensures Permits(at, allowed, bot, token, support, now, f) <==>
              && !f.checkRejects && at.row.power == Running && at.row.holder == UserHolder
              && at.row.lease.Some? && at.row.lease.value.id == token && at.row.lease.value.bot == bot
              && at.row.lease.value.expiresAt > now
              && (support.Some? ==>
                    && !f.supportRejects && support.value < |allowed.sessions|
                    && allowed.sessions[support.value].status == Active)
    ensures CheckThrows(at, bot, token, support, now, f) <==>
              || f.checkRejects
              || (support.Some? && f.supportRejects && at.row.power == Running && at.row.holder == UserHolder
                  && at.row.lease.Some? && at.row.lease.value.id == token && at.row.lease.value.bot == bot
                  && at.row.lease.value.expiresAt > now)
  {
  }

  /**
   A token that was in the row before and is let through after the connection was held all the time between; at the
   check it had not run out, and after that its session was active.
   */
  lemma AuthorizedWasHeldThroughout(a: Log<Write>, connected: Log<Write>, at: Log<Write>, allowed: Db, bot: nat,
                                    token: nat, support: Option<nat>, now: int, f: ScreenFaults)
    requires Recorded(at) && Continues(a, connected) && Continues(connected, at)
    requires Recorded(a) && Holds(State(a), token) && Permits(State(at), allowed, bot, token, support, now, f)
    ensures Recorded(connected) && Holds(State(connected), token) && State(connected).row.lease.value.bot == bot
    ensures State(at).row.power == Running && State(at).row.holder == UserHolder
    ensures Holds(State(at), token) && State(at).row.lease.value.expiresAt > now
    ensures support.Some? ==> support.value < |allowed.sessions| && allowed.sessions[support.value].status == Active
  {
    HeldBetween(a, connected, at, token);
    PermitsExactly(State(at), allowed, bot, token, support, now, f);
  }

  lemma HeldBetween(a: Log<Write>, between: Log<Write>, b: Log<Write>, id: nat)
    requires Recorded(b) && Continues(a, between) && Continues(between, b) && Recorded(a)
    requires Holds(State(a), id) && Holds(State(b), id)
    ensures Recorded(between) && SameLease(State(between).row.lease, State(b).row.lease)
  {
    RecordedEvolves(between, b);
    RecordedEvolves(a, between);
  }

  class Computer {
    var db: Db
    ghost var calls: seq<ScreenCall>
    ghost var log: Log<Write>

    ghost predicate Valid()
      reads this
    {
      Recorded(log) && State(log) == db && Invariant(db)
    }

    constructor ()
      ensures Valid() && log == Begin && calls == []
    {
      db, calls, log := Fresh, [], Begin;
    }

    /** One write of the handler that began at `start`, and the count it is told. */
    method Do(w: Write, reply: Reply, ghost start: Log<Write>) returns (count: Option<nat>)
      requires Valid() && Continues(start, log) && Legal(db, w) && KeepsControl(db, w)
      modifies this`db, this`log
      ensures Valid() && Continues(start, log)
      ensures log == if reply.Rejects? then old(log) else Then(old(log), w, true)
      ensures count == if reply.Answers? then Some(if Matches(old(db), w) then 1 else 0) else None
    {
      ApplyKeepsInvariant(db, w);
      count := if reply.Answers? then Some(if Matches(db, w) then 1 else 0) else None;
      if !reply.Rejects? {
        db := Apply(db, w);
        log := Then(log, w, true);
      }
    }

    /** Any writes of other requests; none of them belongs to the stop `stop`. */
    method Interfere(stop: Option<nat> := None)
      requires Valid()
      modifies this`db, this`log
      ensures Valid() && OthersOnly(old(log), log) && Undisturbed(old(db), db, stop)
    {
      var steps: int := *;
      for n := 0 to if steps < 0 then 0 else steps
        invariant Valid() && OthersOnly(old(log), log) && Undisturbed(old(db), db, stop)
      {
        var w: Write := *;
        if Legal(db, w) && KeepsControl(db, w) && (stop.None? || !IsStopOf(w, stop.value)) {
          OtherWrites(w, stop);
        }
      }
    }

    method OtherWrites(w: Write, stop: Option<nat>)
      requires Valid() && Legal(db, w) && KeepsControl(db, w) && (stop.None? || !IsStopOf(w, stop.value))
      modifies this`db, this`log
      ensures Valid() && log == Then(old(log), w, false) && Undisturbed(old(db), db, stop)
    {
      if stop.Some? && db.stopper == stop {
        ClaimShutsOut(db, w, stop.value);
      }
      ApplyKeepsInvariant(db, w);
      db := Apply(db, w);
      log := Then(log, w, false);
    }

    /** An await of a handler that began at `start`. */
    method Pause(ghost start: Log<Write>)
      requires Valid() && Continues(start, log)
      modifies this`db, this`log
      ensures Valid() && OthersOnly(old(log), log) && Continues(start, log)
      ensures Evolves(old(db), db)
    {
      Interfere();
      ContinuesTransitive(start, old(log), log);
      RecordedEvolves(old(log), log);
    }

    /**
     The expiry of a lease. True only when this call cleared it; it writes nothing but the claim and the
     clearing of that lease, and a lease whose revocation failed keeps its id, with no user holding it.
     */
    method ExpireComputerControl(id: nat, now: int, f: ExpiryFaults)
      returns (expired: bool, threw: bool, ghost wrote: seq<Write>)
      requires Valid()
      modifies this`db, this`log
      ensures Valid() && Continues(old(log), log)
      ensures Own(log) == Own(old(log)) + wrote && OnlyExpires(wrote, id)
      ensures expired ==> !threw && id in db.retired
      ensures threw ==> f.scheduleFails || f.claim != Answers || f.revokeFails || f.finalize != Answers
      ensures f.claim == Answers && !f.revokeFails && f.finalize == Answers ==>
                Holds(old(db), id) && old(db).row.lease.value.expiresAt <= now ==> id in db.retired
      ensures if !Holds(old(db), id) then !expired && !threw && log == old(log)
              else if old(db).row.lease.value.expiresAt > now then
                !expired && (threw <==> f.scheduleFails) && log == old(log)
              else f.claim.Rejects? || (wrote != [] && wrote[0] == ExpiryClaim(id))
    {
      var row := db.row;
      expired, threw, wrote := false, false, [];
      if row.lease.None? || row.lease.value.id != id {
        return;
      }
      var lease := row.lease.value;
      if lease.expiresAt > now {
        threw := f.scheduleFails;
        return;
      }
      Pause(old(log));
      var claimed := Do(ExpiryClaim(id), f.claim, old(log));
      wrote := if f.claim.Rejects? then [] else [ExpiryClaim(id)];
      if claimed != Some(1) {
        threw := claimed.None?;
        return;
      }
      Pause(old(log));
      if f.revokeFails {
        threw := true;
        return;
      }
      var clear := Finalize(id, lease.bot, lease.run, NoHolder);
      var released := Do(clear, f.finalize, old(log));
      wrote := wrote + if f.finalize.Rejects? then [] else [clear];
      threw, expired := released.None?, released == Some(1);
    }

    /** Expires the lease that was read, if there is one, and reads again. */
    method ExpireStale(row: Row, now: int, f: TakeFaults) returns (ok: bool, ghost wrote: seq<Write>)
      requires Valid()
      modifies this`db, this`log
      ensures Valid() && Continues(old(log), log)
      ensures Own(log) == Own(old(log)) + wrote
      ensures if row.lease.None? then ok && wrote == [] && log == old(log) else OnlyExpires(wrote, row.lease.value.id)
      ensures !ok ==> ExpiryFails(f.expiry) || f.againRejects
    {
      ok, wrote := true, [];
      if row.lease.Some? {
        Pause(old(log));
        ghost var before := log;
        var _, threw, expiry := ExpireComputerControl(row.lease.value.id, now, f.expiry);
        wrote := expiry;
        ContinuesTransitive(old(log), before, log);
        Pause(old(log));
        ok := !threw && !f.againRejects;
      }
    }

    /** Takes the computer from another bot: revokes its screen, clears exactly its lease, and reads again. */
    method Displace(id: nat, f: TakeFaults) returns (ok: bool, ghost wrote: seq<Write>)
      requires Valid() && Holds(db, id)
      modifies this`db, this`log
      ensures Valid() && Continues(old(log), log)
      ensures Own(log) == Own(old(log)) + wrote
      ensures wrote == if f.revokeFails || f.clear.Rejects? then [] else [Clear(id)]
      ensures ok <==> !f.revokeFails && f.clear.Answers? && !f.rereadRejects
      ensures ok ==> id in db.retired
    {
      wrote := [];
      Pause(old(log));
      if f.revokeFails {
        return false, wrote;
      }
      var count := Do(Clear(id), f.clear, old(log));
      wrote := if f.clear.Rejects? then [] else [Clear(id)];
      Pause(old(log));
      ok := count.Some? && !f.rereadRejects;
    }

    /** Ends the control of another bot, and then any lease that has run out. */
    method MakeRoom(read: Row, clocks: Clocks, f: TakeFaults) returns (ok: bool, ghost wrote: seq<Write>)
      requires Valid() && db.row == read
      modifies this`db, this`log
      ensures Valid() && Continues(old(log), log)
      ensures Own(log) == Own(old(log)) + wrote && EndsLeases(wrote)
      ensures !ok ==> RoomFails(f)
      ensures HasActiveComputerControl(read, clocks.read) && !f.revokeFails && !f.clear.Rejects? ==>
                wrote != [] && wrote[0] == Clear(read.lease.value.id)
    {
      ok, wrote := true, [];
      var row := read;
      if HasActiveComputerControl(row, clocks.read) {
        ok, wrote := Displace(row.lease.value.id, f);
        if !ok {
          return;
        }
        row := db.row;
      }
      ghost var displaced := log;
      ghost var expired;
      ok, expired := ExpireStale(row, clocks.expiry, f);
      ContinuesTransitive(old(log), displaced, log);
      wrote := wrote + expired;
    }

    /**
     A client takes control for `bot`. Unless it is answered at once, it ends leases (`before`) until `mid`, and
     from there on its writes and its answer are those of `GrantFits`.
     */
    method TakeOver(bot: nat, clocks: Clocks, execution: Option<Execution>, f: TakeFaults)
      returns (outcome: Takeover, ghost mid: Log<Write>, ghost tried: Log<Write>, ghost lease: Lease,
               ghost told: Log<Write>, ghost before: seq<Write>)
      requires Valid()
      modifies this`db, this`log
      ensures Valid() && Continues(old(log), log)
      ensures
        var row := old(db).row;
        if f.readRejects || !row.power.Running? then
          log == old(log) && outcome == if f.readRejects then TakeoverThrew else NotRunning
        else if HasActiveComputerControl(row, clocks.read) && row.lease.value.bot == bot then
          && Own(log) == Own(old(log))
          && outcome == if f.queueFails then TakeoverThrew else Granted(row.lease.value.id, row.lease.value.expiresAt)
        else
          && Continues(old(log), mid) && Own(mid) == Own(old(log)) + before && EndsLeases(before)
          && (HasActiveComputerControl(row, clocks.read) && !f.revokeFails && f.clear != Rejects ==>
                before != [] && before[0] == Clear(row.lease.value.id))
          && if outcome.TakeoverThrew? && log == mid
                && (f.revokeFails || f.clear != Answers || f.rereadRejects || f.expiry.scheduleFails
                    || f.expiry.claim != Answers || f.expiry.revokeFails || f.expiry.finalize != Answers
                    || f.againRejects)
             then true
             else GrantFits(mid, log, bot, clocks, ExecutionBlocksUserTakeover(execution, clocks.checked), f, outcome,
                            tried, lease, told)
    {
      mid, tried, lease, told, before := log, Begin, Lease(0, 0, None, 0), Begin, [];
      if f.readRejects {
        outcome := TakeoverThrew;
        return;
      }
      var row := db.row;
      if !row.power.Running? {
        outcome := NotRunning;
        return;
      }
      if HasActiveComputerControl(row, clocks.read) && row.lease.value.bot == bot {
        Pause(old(log));
        outcome := if f.queueFails then TakeoverThrew else Granted(row.lease.value.id, row.lease.value.expiresAt);
        return;
      }
      var ok;
      ok, before := MakeRoom(row, clocks, f);
      mid := log;
      if !ok {
        outcome := TakeoverThrew;
        return;
      }
      outcome, tried, lease, told := GrantControl(bot, clocks, execution, f);
      ContinuesTransitive(old(log), mid, log);
    }

    /** The second half of a client takeover: the execution check, the grant, its schedule and its event. */
    method GrantControl(bot: nat, clocks: Clocks, execution: Option<Execution>, f: TakeFaults)
      returns (outcome: Takeover, ghost tried: Log<Write>, ghost lease: Lease, ghost told: Log<Write>)
      requires Valid()
      modifies this`db, this`log
      ensures Valid()
      ensures GrantFits(old(log), log, bot, clocks, ExecutionBlocksUserTakeover(execution, clocks.checked), f, outcome,
                        tried, lease, told)
    {
      tried, lease, told := Begin, Lease(0, 0, None, 0), Begin;
      if f.executionRejects {
        outcome := TakeoverThrew;
        return;
      }
      if ExecutionBlocksUserTakeover(execution, clocks.checked) {
        outcome := Conflict;
        return;
      }
      Pause(old(log));
      var new', claimed := ClaimControl(bot, None, f.grant);
      ContinuesTransitive(old(log), log, log);
      if f.grant.grant.Rejects? {
        outcome := TakeoverThrew;
        return;
      }
      tried, lease, told := log.before, new', log;
      if claimed.None? {
        outcome := TakeoverThrew;
        return;
      }
      ghost var sent := log;
      if claimed == Some(1) {
        outcome := Settle(new', f.grant);
      } else {
        outcome, told := JoinWinner(clocks.joined, f);
      }
      ContinuesTransitive(old(log), sent, log);
    }

    /** The write that puts a new lease into the row, and with it the session of an operator. */
    method ClaimControl(bot: nat, operator: Option<nat>, f: GrantFaults) returns (lease: Lease, claimed: Option<nat>)
      requires Valid()
      modifies this`db, this`log
      ensures Valid()
      ensures lease.id !in old(db).issued && lease.bot == bot
      ensures log == if f.grant.Rejects? then old(log) else Then(old(log), Grant(lease, operator), true)
      ensures claimed.Some? <==> f.grant.Answers?
      ensures claimed == Some(1) <==> f.grant.Answers? && Won(old(log), lease, operator)
    {
      lease := NewLease(bot);
      claimed := Do(Grant(lease, operator), f.grant, log);
    }

    /** After the grant: its schedule and the undoing of it, or its event. */
    method Settle(lease: Lease, f: GrantFaults) returns (outcome: Takeover)
      requires Valid() && db.row.lease == Some(lease) && f.grant.Answers?
      modifies this`db, this`log
      ensures Valid() && Continues(old(log), log)
      ensures Own(log) == Own(old(log)) + if Undoes(f) then [Clear(lease.id)] else []
      ensures Undoes(f) ==> lease.id in db.retired
      ensures outcome == TakeoverAnswer(lease, f)
    {
      Pause(old(log));
      if f.scheduleFails {
        var _ := Do(Clear(lease.id), f.rollback, old(log));
        return TakeoverThrew;
      }
      Pause(old(log));
      outcome := if f.appendRejects then TakeoverThrew else Granted(lease.id, lease.expiresAt);
    }

    /** A caller that lost the race is told the lease in the row it reads, at the instant `told`. */
    method JoinWinner(now: int, f: TakeFaults) returns (outcome: Takeover, ghost told: Log<Write>)
      requires Valid()
      modifies this`db, this`log
      ensures Valid() && OthersOnly(old(log), log)
      ensures Recorded(told) && Continues(old(log), told) && Continues(told, log)
      ensures outcome == LoserAnswer(State(told), now, f)
    {
      Pause(old(log));
      told := log;
      outcome := LoserAnswer(db, now, f);
      if JoinAnswer(db.row, now).Granted? {
        Pause(old(log));
      }
    }

    /**
     A client gives back the lease it holds. Without active control for the bot nothing happens; otherwise
     the call throws exactly when the revoke or the write does, and the lease is gone for good exactly
     when the write was taken.
     */
    method ReleaseControl(bot: nat, now: int, revokeFails: bool, finalize: Reply) returns (outcome: Release)
      requires Valid()
      modifies this`db, this`log
      ensures Valid() && Continues(old(log), log)
      ensures var row := old(db).row;
              if HasActiveComputerControl(row, now) && row.lease.value.bot == bot then
                var lease, taken := row.lease.value, !revokeFails && !finalize.Rejects?;
                && outcome == (if revokeFails || !finalize.Answers? then ReleaseThrew else ReleaseOk(false))
                && Own(log) == Own(old(log))
                               + (if taken then [Finalize(lease.id, bot, lease.run, BotHolder)] else [])
                && (taken ==> lease.id in db.retired)
              else
                outcome == ReleaseOk(true) && log == old(log)
    {
      var row := db.row;
      if !HasActiveComputerControl(row, now) || row.lease.value.bot != bot {
        return ReleaseOk(true);
      }
      Pause(old(log));
      if revokeFails {
        return ReleaseThrew;
      }
      var lease := row.lease.value;
      var count := Do(Finalize(lease.id, lease.bot, lease.run, BotHolder), finalize, old(log));
      outcome := if count.Some? then ReleaseOk(false) else ReleaseThrew;
    }

    /**
     A stop: its claim is sent exactly when no other bot has an execution lease and the database takes it,
     and from there to its last write no lease is granted.
     */
    method StopComputer(me: nat, f: StopFaults) returns (outcome: Stop, ghost claimed: Log<Write>)
      requires Valid() && db.stopper != Some(me)
      modifies this`db, this`log
      ensures Valid() && StopFits(old(log), log, me, f, outcome, claimed)
    {
      var row := db.row;
      Interfere(Some(me));
      claimed := log;
      if f.busy || f.claim.Rejects? {
        return if f.claim.Answers? then StopConflict else StopThrew, claimed;
      }
      // A lost claim is there without the handler knowing.
      var matches := Matches(db, StopClaim(me));
      var count := Do(StopClaim(me), f.claim, old(log));
      if !matches {
        return if count.Some? then StopConflict else StopThrew, claimed;
      }
      ghost var claim := log;
      outcome := EndStop(me, row.power, f);
      ContinuesTransitive(old(log), claim, log);
      assert Own(log) == Own(old(log)) + [StopClaim(me), EndWrite(me, row.power, f)];
    }

    /** The stop after its claim. */
    method EndStop(me: nat, power: Power, f: StopFaults) returns (outcome: Stop)
      requires Valid() && db.stopper == Some(me)
      modifies this`db, this`log
      ensures Valid() && Continues(old(log), log)
      ensures Own(log) == Own(old(log)) + [EndWrite(me, power, f)]
      ensures outcome == StopOutcome(f) && Ended(old(db), db, f, power)
    {
      Interfere(Some(me));
      RecordedEvolves(old(log), log);
      var _ := Do(EndWrite(me, power, f), Answers, old(log));
      outcome := StopOutcome(f);
    }

    /**
     A support operator takes control. While someone has control only the operator's own session is replayed;
     otherwise, from `mid` on, its writes and its answer are those of `SupportFits`.
     */
    method TakeSupportControl(bot: nat, operator: nat, clocks: Clocks, execution: Option<Execution>, f: TakeFaults)
      returns (outcome: SupportTakeover, ghost mid: Log<Write>, ghost tried: Log<Write>, ghost lease: Lease,
               ghost before: seq<Write>)
      requires Valid()
      modifies this`db, this`log
      ensures Valid() && Continues(old(log), log)
      ensures
        var row := old(db).row;
        if f.readRejects || !row.power.Running? then
          log == old(log) && outcome == if f.readRejects then SupportThrew else SupportRefused
        else
          var expires := row.lease.Some? && !HasActiveComputerControl(row, clocks.read);
          && Recorded(mid) && Continues(old(log), mid) && Continues(mid, log) && Own(mid) == Own(old(log)) + before
          && (if expires then OnlyExpires(before, row.lease.value.id) else mid == old(log))
          && if expires && f.againRejects then outcome.SupportThrew? && log == mid
             else if HasActiveComputerControl(State(mid).row, clocks.again) then
               && Own(log) == Own(mid) && Recorded(tried) && Continues(mid, tried) && Continues(tried, log)
               && Replays(State(tried), State(mid).row.lease.value, operator, f, outcome)
             else SupportFits(mid, log, bot, operator, ExecutionBlocksUserTakeover(execution, clocks.checked), f,
                              outcome,
                              tried, lease)
    {
      mid, tried, lease, before := log, Begin, Lease(0, 0, None, 0), [];
      var row := db.row;
      if f.readRejects || !row.power.Running? {
        outcome := if f.readRejects then SupportThrew else SupportRefused;
        return;
      }
      var expires := row.lease.Some? && !HasActiveComputerControl(row, clocks.read);
      if expires {
        // A failed revocation is ignored here.
        var _, expiry := ExpireStale(row, clocks.expiry, f);
        before := expiry;
      }
      mid := log;
      if expires && f.againRejects {
        outcome := SupportThrew;
        return;
      }
      row := db.row;
      if HasActiveComputerControl(row, clocks.again) {
        outcome, tried := Replay(row.lease.value, operator, f);
      } else {
        outcome, tried, lease := GrantSupport(bot, operator, clocks, execution, f);
      }
      ContinuesTransitive(old(log), mid, log);
    }

    /** The session of the lease that was read, looked up at the instant `looked`. */
    method Replay(lease: Lease, operator: nat, f: TakeFaults)
      returns (outcome: SupportTakeover, ghost looked: Log<Write>)
      requires Valid()
      modifies this`db, this`log
      ensures Valid() && OthersOnly(old(log), log) && looked == log
      ensures Replays(db, lease, operator, f, outcome)
    {
      Pause(old(log));
      looked := log;
      if f.lookupRejects {
        return SupportThrew, looked;
      }
      var found := FindSession(operator, lease.id);
      outcome := if found.None? then SupportRefused else SupportGranted(found.value, lease.id, lease.expiresAt, true);
    }

    /** The second half of a support takeover: lease and session appear in one write, and go in one. */
    method GrantSupport(bot: nat, operator: nat, clocks: Clocks, execution: Option<Execution>, f: TakeFaults)
      returns (outcome: SupportTakeover, ghost tried: Log<Write>, ghost lease: Lease)
      requires Valid()
      modifies this`db, this`log
      ensures Valid()
      ensures SupportFits(old(log), log, bot, operator, ExecutionBlocksUserTakeover(execution, clocks.checked), f,
                          outcome, tried, lease)
    {
      tried, lease := Begin, Lease(0, 0, None, 0);
      Pause(old(log));
      if f.executionRejects || ExecutionBlocksUserTakeover(execution, clocks.checked) {
        outcome := if f.executionRejects then SupportThrew else SupportRefused;
        return;
      }
      var session := |db.sessions|;
      var new', claimed := ClaimControl(bot, Some(operator), f.grant);
      if f.grant.grant.Rejects? {
        outcome := SupportThrew;
        return;
      }
      tried, lease := log.before, new';
      if claimed != Some(1) {
        outcome := if claimed.Some? then SupportRefused else SupportThrew;
        return;
      }
      ghost var sent := log;
      outcome := SettleSupport(new', operator, session, f.grant);
      ContinuesTransitive(old(log), sent, log);
    }

    /** After the grant: its schedule, the transaction that takes lease and session back, or its event. */
    method SettleSupport(lease: Lease, operator: nat, session: nat, f: GrantFaults) returns (outcome: SupportTakeover)
      requires Valid() && db.row.lease == Some(lease) && f.grant.Answers?
      requires HasSession(db, operator, lease.id, session)
      modifies this`db, this`log
      ensures Valid() && Continues(old(log), log)
      ensures Own(log) == Own(old(log)) + if Undoes(f) then [SupportRollback(lease.id, session)] else []
      ensures Undoes(f) ==> TakenBack(db, lease, operator)
      ensures outcome == SupportAnswer(lease, session, f)
    {
      Pause(old(log));
      assert SameSession(old(db).sessions[session], db.sessions[session]);
      if f.scheduleFails {
        var _ := Do(SupportRollback(lease.id, session), f.rollback, old(log));
        return SupportThrew;
      }
      Pause(old(log));
      outcome := if f.appendRejects then SupportThrew else SupportGranted(session, lease.id, lease.expiresAt, false);
    }

    /** A support operator gives control back through `bot`: the computer is read first, then the session. */
    method ReleaseSupportControl(bot: nat, operator: nat, f: ReleaseFaults)
      returns (outcome: Release, ghost looked: Log<Write>, ghost cleared: Log<Write>)
      requires Valid()
      modifies this`db, this`log
      ensures Valid() && ReleaseFits(old(log), log, bot, operator, f, outcome, looked, cleared)
      ensures Latest(State(looked).sessions, operator).Some? && outcome.ReleaseOk? ==>
                var session := Latest(State(looked).sessions, operator).value;
                session < |db.sessions| && !db.sessions[session].status.Active?
    {
      var row := db.row;
      Pause(old(log));
      looked, cleared := log, Begin;
      var found := LatestSession(operator);
      if f.readRejects || found.None? {
        outcome := if f.readRejects then ReleaseThrew else ReleaseOk(true);
        return;
      }
      var id := db.sessions[found.value].lease;
      if row.lease.None? || row.lease.value.id != id {
        var closed := CloseSupportSession(found.value, f);
        outcome := if closed then ReleaseOk(true) else ReleaseThrew;
      } else {
        outcome, cleared := GiveBack(found.value, row.lease.value, bot, f);
        if !(f.revokeFails || f.finalize.Rejects?) {
          ContinuesTransitive(old(log), looked, cleared);
        }
      }
      ContinuesTransitive(old(log), looked, log);
    }

    method CloseSupportSession(session: nat, f: ReleaseFaults) returns (closed: bool)
      requires Valid() && session < |db.sessions|
      modifies this`db, this`log
      ensures Valid() && Continues(old(log), log)
      ensures Own(log) == Own(old(log)) + ClosingWrite(session, f)
      ensures closed <==> f.close.Answers?
      ensures session < |db.sessions| && (closed ==> !db.sessions[session].status.Active?)
    {
      Pause(old(log));
      var count := Do(CloseSession(session), f.close, old(log));
      closed := count.Some?;
    }

    /** Revokes, clears the lease that was read, and closes its session. */
    method GiveBack(session: nat, lease: Lease, bot: nat, f: ReleaseFaults)
      returns (outcome: Release, ghost cleared: Log<Write>)
      requires Valid() && session < |db.sessions|
      modifies this`db, this`log
      ensures Valid() && Continues(old(log), log)
      ensures session < |db.sessions| && (outcome.ReleaseOk? ==> !db.sessions[session].status.Active?)
      ensures GivenBack(old(log), log, session, lease, bot, f, outcome, cleared)
    {
      cleared := Begin;
      Pause(old(log));
      if f.revokeFails {
        return ReleaseThrew, cleared;
      }
      var clear := GiveBackWrite(lease, bot);
      var released := Do(clear, f.finalize, old(log));
      if f.finalize.Rejects? {
        return ReleaseThrew, cleared;
      }
      cleared := log.before;
      if released != Some(1) {
        return ReleaseThrew, cleared;
      }
      ghost var sent := log;
      var closed := CloseSupportSession(session, f);
      ContinuesTransitive(old(log), sent, log);
      outcome := if closed then ReleaseOk(false) else ReleaseThrew;
    }

    /**
     An interactive screen is handed on exactly if, at an instant `at` after the provider connected, the row
     authorized this token and bot, and at one after that the session was still active; every other outcome,
     a thrown check included, tries to close the session and then to revoke the token.
     */
    method ConnectLeasedComputerScreen(bot: nat, interactive: bool, token: Option<nat>, support: Option<nat>, now: int,
                                       f: ScreenFaults)
      returns (outcome: Screen, ghost connected: Log<Write>, ghost at: Log<Write>, ghost allowed: Log<Write>)
      requires Valid()
      modifies this`db, this`log, this`calls
      ensures Valid() && OthersOnly(old(log), log)
      ensures
        if interactive && token.None? then outcome == NoUrl && calls == old(calls) && log == old(log)
        else if f.connectFails then outcome == ScreenThrew && calls == old(calls)
        else if !interactive then outcome == Url(false) && calls == old(calls) + [Connect(connected)]
        else
          && Recorded(at) && Recorded(allowed)
          && Continues(old(log), connected) && Continues(connected, at) && Continues(at, allowed) && Continues(allowed,
                                                                                                               log)
          && if Permits(State(at), State(allowed), bot, token.value, support, now, f) then
               outcome == Url(true) && calls == old(calls) + [Connect(connected)]
             else
               && calls == old(calls) + [Connect(connected), Close, Revoke(token.value)]
               && outcome == if CheckThrows(State(at), bot, token.value, support, now, f) || f.revokeFails
                             then ScreenThrew else NoUrl
    {
      connected, at, allowed := log, log, log;
      if interactive && token.None? {
        outcome := NoUrl;
        return;
      }
      Pause(old(log));
      if f.connectFails {
        outcome := ScreenThrew;
        return;
      }
      connected := log;
      calls := calls + [Connect(connected)];
      if !interactive {
        outcome := Url(false);
        return;
      }
      var authorized, throws;
      authorized, throws, at, allowed := CheckLease(bot, token.value, support, now, f, old(log));
      if authorized {
        outcome := Url(true);
      } else {
        calls := calls + [Close];
        calls := calls + [Revoke(token.value)];
        outcome := if throws || f.revokeFails then ScreenThrew else NoUrl;
      }
    }

    /** The check after a connection: the row, and then the session that supports it. */
    method CheckLease(bot: nat, token: nat, support: Option<nat>, now: int, f: ScreenFaults, ghost start: Log<Write>)
      returns (authorized: bool, throws: bool, ghost at: Log<Write>, ghost allowed: Log<Write>)
      requires Valid() && Continues(start, log)
      modifies this`db, this`log
      ensures Valid() && OthersOnly(old(log), log) && Continues(start, log)
      ensures Recorded(at) && Recorded(allowed)
      ensures Continues(old(log), at) && Continues(at, allowed) && Continues(allowed, log)
      ensures authorized <==> Permits(State(at), State(allowed), bot, token, support, now, f)
      ensures throws <==> CheckThrows(State(at), bot, token, support, now, f)
    {
      Pause(start);
      at, allowed := log, log;
      throws := CheckThrows(db, bot, token, support, now, f);
      authorized := !f.checkRejects && Authorizes(db, bot, token, now);
      if authorized && support.Some? {
        Pause(start);
        allowed := log;
        authorized := !f.supportRejects && SessionAllows(db, support);
      }
      ContinuesTransitive(old(log), at, log);
    }

    /** A random lease id, never used before. */
    method NewLease(bot: nat) returns (lease: Lease)
      ensures lease.id !in db.issued && lease.bot == bot
    {
      FreshId(db.issued);
      var id: nat :| id !in db.issued;
      var execution: Option<nat>, expiresAt: int := *, *;
      lease := Lease(id, bot, execution, expiresAt);
    }

    /** The operator's latest active session, if there is one. */
    method LatestSession(operator: nat) returns (session: Option<nat>)
      ensures session == Latest(db.sessions, operator)
      ensures session.Some? ==> session.value < |db.sessions|
    {
      session := None;
      for i := 0 to |db.sessions|
        invariant session == Latest(db.sessions[..i], operator)
        invariant session.Some? ==> session.value < i
      {
        assert db.sessions[..i + 1][..i] == db.sessions[..i];
        if ActiveFor(db.sessions[i], operator) {
          session := Some(i);
        }
      }
      assert db.sessions[..|db.sessions|] == db.sessions;
    }

    method FindSession(operator: nat, lease: nat) returns (session: Option<nat>)
      ensures session.Some? ==> HasSession(db, operator, lease, session.value)
      ensures session.None? ==> forall i :: !HasSession(db, operator, lease, i)
    {
      for i := 0 to |db.sessions|
        invariant forall k :: 0 <= k < i ==> !HasSession(db, operator, lease, k)
      {
        if db.sessions[i] == Session(operator, lease, Active) {
          return Some(i);
        }
      }
      session := None;
    }
  }

  lemma FreshId(taken: set<nat>)
    ensures exists id: nat :: id !in taken
  {
    var bound := Above(taken);
    assert bound !in taken;
  }

  lemma {:induction false} Above(taken: set<nat>) returns (bound: nat)
    ensures forall id :: id in taken ==> id < bound
  {
    bound := 0;
    var left := taken;
    while left != {}
      invariant left <= taken && forall n :: n in taken && n !in left ==> n < bound
      decreases left
    {
      var id :| id in left;
      left := left - {id};
      bound := if id < bound then bound else id + 1;
    }
  }
}
