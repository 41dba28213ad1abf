/**
 The control columns of one computer and its support sessions, as single database writes with
 their guards: apps/api/src/router.ts, apps/api/src/brandwell-support.ts,
 packages/adapters/src/computer-control.ts, packages/db/src/events.ts and the boot of
 packages/adapters/src/computer-lifecycle.ts. A write whose guard fails changes nothing.
 */
module ControlLease {
  import opened Options
  import opened Logs

  datatype Power = Stopped | Booting | Running | Suspending | Suspended | Error

  datatype Holder = NoHolder | BotHolder | UserHolder

  datatype Lease = Lease(id: nat, bot: nat, run: Option<nat>, expiresAt: int)

  datatype Row = Row(power: Power, holder: Holder, lease: Option<Lease>)

  datatype SessionStatus = Active | Released | Failed

  datatype Session = Session(operator: nat, lease: nat, status: SessionStatus)

  /**
   The rows, and what has happened to them: lease ids granted, those that left the row, those an
   expiry claimed, and the stop between its claim and its last write.
   */
  datatype Db = Db(row: Row, sessions: seq<Session>, issued: set<nat>, retired: set<nat>, claimed: set<nat>,
                   stopper: Option<nat>)

  datatype Write =
    | Grant(lease: Lease, operator: Option<nat>)
    | Clear(id: nat)
    | SupportRollback(id: nat, session: nat)
    | Finalize(id: nat, bot: nat, run: Option<nat>, holder: Holder)
    | CloseSession(session: nat)
    | ExpiryClaim(id: nat)
    | Extend(id: nat, bot: nat, until: int)
    | StopClaim(stop: nat)
    | StopRestore(stop: nat, power: Power)
    | StopFinish(stop: nat)
    | StopFail(stop: nat)
    /** The stop ends without a write, its claim still on the row. */
    | StopAbandon(stop: nat)
    /** The error mark of a stop whose last write took effect although it was rejected. */
    | StopLateFail
    | BootClaim
    | BootActivate(kept: bool, holder: Holder)
    | BootFail

  predicate Holds(db: Db, id: nat) {
    db.row.lease.Some? && db.row.lease.value.id == id
  }

  /** The `where` clause of the computer update. */
  predicate Matches(db: Db, w: Write) {
    var row := db.row;
    match w
    case Grant(_, _) => row.power.Running? && !row.holder.UserHolder? && row.lease.None?
    case Clear(id) => Holds(db, id)
    case SupportRollback(id, _) => Holds(db, id)
    case Finalize(id, bot, run, _) => Holds(db, id) && row.lease.value.bot == bot && row.lease.value.run == run
    case CloseSession(_) => true
    case ExpiryClaim(id) => Holds(db, id)
    case Extend(id, bot, _) => row.holder.UserHolder? && Holds(db, id) && row.lease.value.bot == bot
    case StopClaim(_) => !row.power.Suspending?
    case StopRestore(_, _) => row.power.Suspending?
    case StopFinish(_) => true
    case StopFail(_) => row.power.Suspending?
    case StopAbandon(_) => true
    case StopLateFail => row.power.Suspending?
    case BootClaim => row.power.Stopped? || row.power.Suspended? || row.power.Error?
    case BootActivate(_, _) => row.power.Booting?
    case BootFail => row.power.Booting?
  }

  /** What the handlers respect: fresh lease ids, existing sessions, and a stop ending only its own claim. */
  predicate Legal(db: Db, w: Write) {
    match w
    case Grant(lease, _) => lease.id !in db.issued
    case SupportRollback(_, session) => session < |db.sessions|
    case Finalize(_, _, _, holder) => !holder.UserHolder?
    case CloseSession(session) => session < |db.sessions|
    case StopRestore(stop, _) => db.stopper == Some(stop)
    case StopFinish(stop) => db.stopper == Some(stop)
    case StopFail(stop) => db.stopper == Some(stop)
    case StopAbandon(stop) => db.stopper == Some(stop)
    case BootActivate(_, holder) => !holder.UserHolder?
    case _ => true
  }

  /** The row without its lease. */
  function Retire(db: Db, holder: Holder): Db {
    db.(row := db.row.(holder := holder, lease := None),
    retired := db.retired + if db.row.lease.Some? then {db.row.lease.value.id} else {})
  }

  function EndSession(sessions: seq<Session>, i: nat, status: SessionStatus): seq<Session>
    requires i < |sessions|
  {
    if sessions[i].status.Active? then sessions[i := sessions[i].(status := status)] else sessions
  }

  /** Only the session of a failed schedule, and the end of a stop, happen without a match. */
  function Missed(db: Db, w: Write): Db
    requires Legal(db, w)
  {
    match w
    case SupportRollback(_, session) => db.(sessions := EndSession(db.sessions, session, Failed))
    case StopRestore(_, _) => db.(stopper := None)
    case StopFail(_) => db.(stopper := None)
    case _ => db
  }

  function Apply(db: Db, w: Write): Db
    requires Legal(db, w)
  {
    if !Matches(db, w) then Missed(db, w)
    else
      match w
      case Grant(lease, operator) =>
        db.(row := Row(Running, UserHolder, Some(lease)),
            issued := db.issued + {lease.id},
            sessions := db.sessions + if operator.Some? then [Session(operator.value, lease.id, Active)] else [])
      case Clear(_) => Retire(db, NoHolder)
      case SupportRollback(_, session) => Retire(db, NoHolder).(sessions := EndSession(db.sessions, session, Failed))
      case Finalize(_, _, _, holder) => Retire(db, holder)
      case CloseSession(session) => db.(sessions := EndSession(db.sessions, session, Released))
      case ExpiryClaim(id) => db.(row := db.row.(holder := NoHolder), claimed := db.claimed + {id})
      case Extend(_, _, until) => db.(row := db.row.(lease := Some(db.row.lease.value.(expiresAt := until))))
      case StopClaim(stop) => db.(row := db.row.(power := Suspending), stopper := Some(stop))
      case StopRestore(_, power) => db.(row := db.row.(power := power), stopper := None)
      case StopFinish(_) => var gone := Retire(db, NoHolder); gone.(row := gone.row.(power := Stopped), stopper := None)
      case StopFail(_) => db.(row := db.row.(power := Error), stopper := None)
      case StopAbandon(_) => db.(stopper := None)
      case StopLateFail => db.(row := db.row.(power := Error))
      case BootClaim => db.(row := db.row.(power := Booting))
      case BootActivate(kept, holder) =>
        if kept then db.(row := db.row.(power := Running, holder := UserHolder))
        else var gone := Retire(db, holder); gone.(row := gone.row.(power := Running))
      case BootFail => db.(row := db.row.(power := Error))
  }

  // ----- the invariant

  /** The user holds the computer exactly while an unclaimed lease is in the row. */
  predicate UserIffLeased(db: Db) {
    db.row.holder.UserHolder? <==> db.row.lease.Some? && db.row.lease.value.id !in db.claimed
  }

  predicate Invariant(db: Db) {
    && UserIffLeased(db)
    && db.issued == db.retired + (if db.row.lease.Some? then {db.row.lease.value.id} else {})
    && (db.row.lease.Some? ==> db.row.lease.value.id !in db.retired)
    && db.claimed <= db.issued
    && (db.stopper.Some? ==> db.row.power.Suspending?)
    && (forall i :: 0 <= i < |db.sessions| ==> db.sessions[i].lease in db.issued)
    && (forall i, j :: 0 <= i < j < |db.sessions| ==> db.sessions[i].lease != db.sessions[j].lease)
  }

  /**
   A boot may give control back to the user only if the user still holds it, and a late error mark may
   not hit the claim of another stop.
   */
  predicate KeepsControl(db: Db, w: Write) {
    && (w.BootActivate? && w.kept && db.row.power.Booting? ==> db.row.holder.UserHolder?)
    && (w.StopLateFail? ==> db.stopper.None?)
  }

  /** Every write keeps the invariant, except exactly those two. */
  lemma ApplyKeepsInvariant(db: Db, w: Write)
    requires Invariant(db) && Legal(db, w)
    ensures Invariant(Apply(db, w)) <==> KeepsControl(db, w)
  {
    var after := Apply(db, w);
    if w.BootActivate? && w.kept && db.row.power.Booting? && !db.row.holder.UserHolder? {
      assert after.row.lease == db.row.lease && after.claimed == db.claimed;
      assert !UserIffLeased(after);
    } else if w.StopLateFail? {
      assert after.sessions == db.sessions && after.row.lease == db.row.lease;
    } else {
      assert |after.sessions| >= |db.sessions|;
      assert forall i :: 0 <= i < |db.sessions| ==> after.sessions[i].lease == db.sessions[i].lease;
    }
  }

  /** Who holds the computer, and in which state it is, after a write whose guard is met. */
  lemma HolderAfter(db: Db, w: Write)
    requires Legal(db, w) && Matches(db, w)
    ensures var before, after := db.row, Apply(db, w).row;
            && (w.Grant? ==> after == Row(before.power, UserHolder, Some(w.lease)))
            && (w.Clear? || w.SupportRollback? ==> after == Row(before.power, NoHolder, None))
            && (w.Finalize? ==> after == Row(before.power, w.holder, None))
            && (w.ExpiryClaim? ==> after == Row(before.power, NoHolder, before.lease))
            && (w.Extend? ==> after == before.(lease := Some(before.lease.value.(expiresAt := w.until))))
            && (w.StopFinish? ==> after == Row(Stopped, NoHolder, None))
            && (w.BootActivate? ==>
                  after == if w.kept then Row(Running, UserHolder, before.lease) else Row(Running, w.holder, None))
            && (w.StopClaim? || w.StopRestore? || w.StopFail? || w.StopLateFail? || w.BootClaim? || w.BootFail? ==>
                  && after.holder == before.holder && after.lease == before.lease
                  && after.power == if w.StopClaim? then Suspending else if w.StopRestore? then w.power
                                    else if w.BootClaim? then Booting else Error)
            && (w.CloseSession? || w.StopAbandon? ==> after == before)
  {
  }

  /** A write whose guard is not met leaves the row, and only a failed schedule then ends a session. */
  lemma MissedKeepsTheRow(db: Db, w: Write)
    requires Legal(db, w)
    ensures match w
            case Grant(_, _) => db.row.power != Running || db.row.holder == UserHolder || db.row.lease.Some?
                                ==> Apply(db, w) == db
            case Clear(id) => !Holds(db, id) ==> Apply(db, w) == db
            case ExpiryClaim(id) => !Holds(db, id) ==> Apply(db, w) == db
            case Finalize(id, bot, run, _) =>
              !(Holds(db, id) && db.row.lease.value.bot == bot && db.row.lease.value.run == run) ==> Apply(db, w) == db
            case Extend(id, bot, _) =>
              !(db.row.holder == UserHolder && Holds(db, id) && db.row.lease.value.bot == bot) ==> Apply(db, w) == db
            case SupportRollback(id, session) =>
              && (!Holds(db, id) ==> Apply(db, w).row == db.row)
              && Apply(db, w).sessions[session].status != Active
            case CloseSession(session) =>
              Apply(db, w).sessions[session].status == if db.sessions[session].status == Active then Released
                                                       else db.sessions[session].status
            case StopClaim(_) => db.row.power == Suspending ==> Apply(db, w) == db
            case StopRestore(_, _) => db.row.power != Suspending ==> Apply(db, w).row == db.row
            case StopFail(_) => db.row.power != Suspending ==> Apply(db, w).row == db.row
            case StopLateFail => db.row.power != Suspending ==> Apply(db, w) == db
            case BootClaim =>
              db.row.power in {Booting, Running, Suspending} ==> Apply(db, w) == db
            case BootActivate(_, _) => db.row.power != Booting ==> Apply(db, w) == db
            case BootFail => db.row.power != Booting ==> Apply(db, w) == db
            case _ => true
  {
  }

  // ----- grants and departures

  /** A lease enters only through a grant, and a grant lands exactly on a running computer with none. */
  lemma GrantsExactly(db: Db, w: Write, id: nat)
    requires Invariant(db) && Legal(db, w) && !Holds(db, id)
    ensures Holds(Apply(db, w), id) <==>
              w.Grant? && w.lease.id == id && db.row.power.Running? && db.row.lease.None?
  {
  }

  /** A lease leaves only through a write naming it, a stop's last write, or a boot that keeps no control. */
  lemma LeavesExactly(db: Db, w: Write, id: nat)
    requires Invariant(db) && Legal(db, w) && Holds(db, id)
    ensures !Holds(Apply(db, w), id) <==>
              || ((w.Clear? || w.SupportRollback?) && w.id == id)
              || (w.Finalize? && w.id == id && w.bot == db.row.lease.value.bot && w.run == db.row.lease.value.run)
              || w.StopFinish?
              || (w.BootActivate? && !w.kept && db.row.power.Booting?)
    ensures !Holds(Apply(db, w), id) ==> Apply(db, w).row.lease.None?
  {
  }

  // ----- what other requests can do to the rows

  predicate SameSession(a: Session, b: Session) {
    a.operator == b.operator && a.lease == b.lease && (a.status.Active? || a == b)
  }

  predicate SameLease(a: Option<Lease>, b: Option<Lease>) {
    a.Some? && b.Some? && a.value.id == b.value.id && a.value.bot == b.value.bot && a.value.run == b.value.run
  }

  /** A lease stays with its bot and run until it leaves, and never comes back. */
  predicate Evolves(a: Db, b: Db) {
    && a.issued <= b.issued && a.retired <= b.retired && a.claimed <= b.claimed
    && (a.row.lease.Some? ==> SameLease(a.row.lease, b.row.lease) || a.row.lease.value.id in b.retired)
    && (b.row.lease.Some? && b.row.lease.value.id in a.issued ==> SameLease(a.row.lease, b.row.lease))
    && |a.sessions| <= |b.sessions|
    && (forall i :: 0 <= i < |a.sessions| ==> SameSession(a.sessions[i], b.sessions[i]))
  }

  lemma EvolvesTransitive(a: Db, b: Db, c: Db)
    requires Evolves(a, b) && Evolves(b, c)
    ensures Evolves(a, c)
  {
  }

  lemma ApplyEvolves(db: Db, w: Write)
    requires Invariant(db) && Legal(db, w)
    ensures Evolves(db, Apply(db, w))
  {
    var after := Apply(db, w);
    assert |after.sessions| >= |db.sessions|;
    assert forall i :: 0 <= i < |db.sessions| ==> SameSession(db.sessions[i], after.sessions[i]);
  }

  /** Seen before and after, a lease was in the row all the time between. */
  lemma HeldThroughout(a: Db, between: Db, b: Db, id: nat)
    requires Invariant(a) && Invariant(between) && Invariant(b) && Evolves(a, between) && Evolves(between, b)
    requires Holds(a, id) && Holds(b, id)
    ensures Holds(between, id) && SameLease(a.row.lease, between.row.lease)
  {
  }

  /** The session of a lease that left never matches the row again. */
  lemma LeftSessionsStayDead(a: Db, b: Db, session: nat)
    requires Invariant(a) && Invariant(b) && Evolves(a, b) && session < |a.sessions|
    requires !Holds(a, a.sessions[session].lease)
    ensures !Holds(b, b.sessions[session].lease)
  {
  }

  predicate IsStopOf(w: Write, stop: nat) {
    (w.StopClaim? || w.StopRestore? || w.StopFinish? || w.StopFail? || w.StopAbandon?) && w.stop == stop
  }

  /** While a stop holds its claim, nobody else is granted control or moves the computer. */
  lemma ClaimShutsOut(db: Db, w: Write, stop: nat)
    requires Invariant(db) && Legal(db, w) && db.stopper == Some(stop)
    requires !IsStopOf(w, stop) && KeepsControl(db, w)
    ensures Apply(db, w).stopper == Some(stop) && Apply(db, w).row.power.Suspending?
    ensures Apply(db, w).issued == db.issued
  {
  }

  /** Suspending with no stop under way is a dead end: no grant, stop or boot ever matches, only a late error mark. */
  lemma AbandonedSuspendingIsForever(db: Db, w: Write)
    requires Legal(db, w) && db.row.power.Suspending? && db.stopper.None?
    ensures Apply(db, w).stopper.None? && (Apply(db, w).row.power.Suspending? <==> !w.StopLateFail?)
  {
  }

  // ----- whole runs

  ghost predicate Runs(db: Db, writes: seq<Write>)
    decreases |writes|
  {
    writes == [] || (Legal(db, writes[0]) && Runs(Apply(db, writes[0]), writes[1..]))
  }

  ghost function Outcome(db: Db, writes: seq<Write>): Db
    requires Runs(db, writes)
    decreases |writes|
  {
    if writes == [] then db else Outcome(Apply(db, writes[0]), writes[1..])
  }

  ghost predicate AllKeepControl(db: Db, writes: seq<Write>)
    requires Runs(db, writes)
    decreases |writes|
  {
    writes == [] || (KeepsControl(db, writes[0]) && AllKeepControl(Apply(db, writes[0]), writes[1..]))
  }

  /** The invariant holds at every instant of the run. */
  ghost predicate Always(db: Db, writes: seq<Write>)
    requires Runs(db, writes)
    decreases |writes|
  {
    Invariant(db) && (writes == [] || Always(Apply(db, writes[0]), writes[1..]))
  }

  /** Over any run: the invariant never breaks exactly when no write of the two kinds breaks it. */
  lemma {:induction false} AlwaysExactly(db: Db, writes: seq<Write>)
    requires Invariant(db) && Runs(db, writes)
    ensures Always(db, writes) <==> AllKeepControl(db, writes)
    decreases |writes|
  {
    if writes != [] {
      ApplyKeepsInvariant(db, writes[0]);
      if KeepsControl(db, writes[0]) {
        AlwaysExactly(Apply(db, writes[0]), writes[1..]);
      }
    }
  }

  lemma {:induction false} RunKeepsInvariant(db: Db, writes: seq<Write>)
    requires Invariant(db) && Runs(db, writes) && AllKeepControl(db, writes)
    ensures Invariant(Outcome(db, writes)) && Evolves(db, Outcome(db, writes))
    decreases |writes|
  {
    if writes != [] {
      var next := Apply(db, writes[0]);
      ApplyKeepsInvariant(db, writes[0]);
      ApplyEvolves(db, writes[0]);
      RunKeepsInvariant(next, writes[1..]);
      EvolvesTransitive(db, next, Outcome(db, writes));
    }
  }

  /** From a stop's claim to its last write no run of others' writes grants a lease. */
  lemma {:induction false} NoGrantDuringStop(db: Db, writes: seq<Write>, stop: nat)
    requires Invariant(db) && Runs(db, writes) && AllKeepControl(db, writes) && db.stopper == Some(stop)
    requires forall w :: w in writes ==> !IsStopOf(w, stop)
    ensures var after := Outcome(db, writes);
            && after.issued == db.issued && after.stopper == Some(stop)
            && (after.row.lease.Some? ==> SameLease(db.row.lease, after.row.lease))
    decreases |writes|
  {
    RunKeepsInvariant(db, writes);
    if writes != [] {
      assert writes[0] in writes;
      ClaimShutsOut(db, writes[0], stop);
      ApplyKeepsInvariant(db, writes[0]);
      NoGrantDuringStop(Apply(db, writes[0]), writes[1..], stop);
    }
  }

  /** A running computer nobody controls. */
  const Fresh := Db(Row(Running, NoHolder, None), [], {}, {}, {}, None)

  lemma EveryRun(writes: seq<Write>)
    requires Runs(Fresh, writes)
    ensures Always(Fresh, writes) <==> AllKeepControl(Fresh, writes)
  {
    AlwaysExactly(Fresh, writes);
  }

  // ----- recorded runs

  /** The log is a run from a fresh computer in which every write keeps control. */
  predicate Recorded(log: Log<Write>)
    decreases log, 0
  {
    match log
    case Begin => true
    case Then(before, w, _) => Recorded(before) && Legal(State(before), w) && KeepsControl(State(before), w)
  }

  /** The rows after the log. */
  function State(log: Log<Write>): Db
    requires Recorded(log)
    decreases log, 1
  {
    match log
    case Begin => Fresh
    case Then(before, w, _) => Apply(State(before), w)
  }

  /** Every state of a recorded run keeps the invariant, and the later ones evolve from the earlier. */
  lemma {:induction false} RecordedEvolves(a: Log<Write>, b: Log<Write>)
    requires Recorded(b) && Continues(a, b)
    ensures Recorded(a) && Invariant(State(a)) && Invariant(State(b)) && Evolves(State(a), State(b))
    decreases b
  {
    if b.Then? {
      RecordedEvolves(if a == b then a.before else a, b.before);
      ApplyKeepsInvariant(State(b.before), b.write);
      ApplyEvolves(State(b.before), b.write);
      if a != b {
        EvolvesTransitive(State(a), State(b.before), State(b));
      }
    }
  }

  /** A session stays with its operator and lease, and what has ended stays as it ended. */
  lemma SessionsKept(a: Log<Write>, b: Log<Write>, i: nat)
    requires Recorded(b) && Continues(a, b) && Recorded(a) && i < |State(a).sessions|
    ensures i < |State(b).sessions|
    ensures var before, after := State(a).sessions[i], State(b).sessions[i];
            && after.operator == before.operator && after.lease == before.lease
            && (before.status != Active ==> after.status == before.status)
  {
    RecordedEvolves(a, b);
    assert SameSession(State(a).sessions[i], State(b).sessions[i]);
  }

  function Writes(log: Log<Write>): seq<Write> {
    if log.Begin? then [] else Writes(log.before) + [log.write]
  }

  lemma {:induction false} RunsOn(db: Db, writes: seq<Write>, w: Write)
    requires Runs(db, writes) && AllKeepControl(db, writes)
    requires Legal(Outcome(db, writes), w) && KeepsControl(Outcome(db, writes), w)
    ensures Runs(db, writes + [w]) && AllKeepControl(db, writes + [w])
    ensures Outcome(db, writes + [w]) == Apply(Outcome(db, writes), w)
    decreases |writes|
  {
    if writes != [] {
      RunsOn(Apply(db, writes[0]), writes[1..], w);
      assert (writes + [w])[1..] == writes[1..] + [w];
    } else {
      assert writes + [w] == [w];
    }
  }

  /** A recorded log is a run, and its state the run's outcome. */
  lemma {:induction false} RecordedIsARun(log: Log<Write>)
    requires Recorded(log)
    ensures Runs(Fresh, Writes(log)) && AllKeepControl(Fresh, Writes(log))
    ensures Outcome(Fresh, Writes(log)) == State(log)
  {
    if log.Then? {
      RecordedIsARun(log.before);
      RunsOn(Fresh, Writes(log.before), log.write);
    }
  }

  // ----- what goes wrong, from a fresh computer

  lemma Begins(db: Db, w: Write, rest: seq<Write>)
    requires Legal(db, w) && Runs(Apply(db, w), rest)
    ensures Runs(db, [w] + rest) && Outcome(db, [w] + rest) == Outcome(Apply(db, w), rest)
  {
    assert ([w] + rest)[1..] == rest;
  }

  /** Between an expiry's claim and its last write a lease is set that no user holds. */
  lemma ExpiryLeavesALeaseUnheld()
    ensures var writes := [Grant(Lease(0, 7, None, 100), None), ExpiryClaim(0)];
            Runs(Fresh, writes) && Holds(Outcome(Fresh, writes), 0) && Outcome(Fresh, writes).row.holder.NoHolder?
  {
    var granted := Apply(Fresh, Grant(Lease(0, 7, None, 100), None));
    Begins(granted, ExpiryClaim(0), []);
    Begins(Fresh, Grant(Lease(0, 7, None, 100), None), [ExpiryClaim(0)] + []);
  }

  /** A stop that read the state during another's claim restores it, and the computer is stuck. */
  lemma RefusedStopsStrandTheComputer()
    ensures var writes := [StopClaim(1), StopRestore(1, Running), StopClaim(2), StopRestore(2, Suspending)];
            && Runs(Fresh, writes)
            && Outcome(Fresh, writes).row.power.Suspending? && Outcome(Fresh, writes).stopper.None?
  {
    var claimed := Apply(Fresh, StopClaim(1));
    var restored := Apply(claimed, StopRestore(1, Running));
    var again := Apply(restored, StopClaim(2));
    Begins(again, StopRestore(2, Suspending), []);
    Begins(restored, StopClaim(2), [StopRestore(2, Suspending)] + []);
    Begins(claimed, StopRestore(1, Running), [StopClaim(2)] + ([StopRestore(2, Suspending)] + []));
    Begins(Fresh, StopClaim(1), [StopRestore(1, Running)] + ([StopClaim(2)] + ([StopRestore(2, Suspending)] + [])));
    assert [StopClaim(1), StopRestore(1, Running), StopClaim(2), StopRestore(2, Suspending)]
        == [StopClaim(1)] + ([StopRestore(1, Running)] + ([StopClaim(2)] + ([StopRestore(2, Suspending)] + [])));
  }

  /** A stop that read running before another one finished marks the stopped computer running again. */
  lemma RefusedStopRevivesAStoppedComputer()
    ensures var writes := [StopClaim(1), StopFinish(1), StopClaim(2), StopRestore(2, Running)];
            Runs(Fresh, writes) && Outcome(Fresh, writes).row == Row(Running, NoHolder, None)
  {
    var claimed := Apply(Fresh, StopClaim(1));
    var stopped := Apply(claimed, StopFinish(1));
    var again := Apply(stopped, StopClaim(2));
    Begins(again, StopRestore(2, Running), []);
    Begins(stopped, StopClaim(2), [StopRestore(2, Running)] + []);
    Begins(claimed, StopFinish(1), [StopClaim(2)] + ([StopRestore(2, Running)] + []));
    Begins(Fresh, StopClaim(1), [StopFinish(1)] + ([StopClaim(2)] + ([StopRestore(2, Running)] + [])));
    assert [StopClaim(1), StopFinish(1), StopClaim(2), StopRestore(2, Running)]
        == [StopClaim(1)] + ([StopFinish(1)] + ([StopClaim(2)] + ([StopRestore(2, Running)] + [])));
  }

  /** A stop's claim and its refusal leave the computer's state as it was exactly if that is what it had read. */
  lemma RefusalRestoresExactly(db: Db, stop: nat, read: Power)
    requires Invariant(db) && !db.row.power.Suspending?
    ensures Legal(db, StopClaim(stop)) && Legal(Apply(db, StopClaim(stop)), StopRestore(stop, read))
    ensures Apply(Apply(db, StopClaim(stop)), StopRestore(stop, read)) == db <==> read == db.row.power
  {
    assert db.stopper.None?;
  }

  /** One statement that throws between a stop's claim and its `try` is enough. */
  lemma FailedReadStrandsTheComputer()
    ensures var writes := [StopClaim(1), StopAbandon(1)];
            && Runs(Fresh, writes)
            && Outcome(Fresh, writes).row.power.Suspending? && Outcome(Fresh, writes).stopper.None?
  {
    var claimed := Apply(Fresh, StopClaim(1));
    Begins(claimed, StopAbandon(1), []);
    Begins(Fresh, StopClaim(1), [StopAbandon(1)] + []);
  }

  /** A computer that failed to stop under a user's lease, and is booting again. */
  const Rebooting := [Grant(Lease(0, 7, None, 100), None), StopClaim(1), StopFail(1), BootClaim]

  lemma Reboots()
    ensures Runs(Fresh, Rebooting)
    ensures Outcome(Fresh, Rebooting)
         == Fresh.(row := Row(Booting, UserHolder, Some(Lease(0, 7, None, 100))), issued := {0})
  {
    var granted := Apply(Fresh, Rebooting[0]);
    var claimed := Apply(granted, Rebooting[1]);
    var failed := Apply(claimed, Rebooting[2]);
    Begins(failed, BootClaim, []);
    Begins(claimed, StopFail(1), [BootClaim] + []);
    Begins(granted, StopClaim(1), [StopFail(1)] + ([BootClaim] + []));
    Begins(Fresh, Rebooting[0], [StopClaim(1)] + ([StopFail(1)] + ([BootClaim] + [])));
    assert Rebooting == [Rebooting[0]] + ([StopClaim(1)] + ([StopFail(1)] + ([BootClaim] + [])));
  }

  /** Control released while the computer boots is given back without a lease. */
  lemma BootReturnsReleasedControl()
    ensures Runs(Fresh, Rebooting)
    ensures var booting := Outcome(Fresh, Rebooting);
            var ends := [Finalize(0, 7, None, BotHolder), BootActivate(true, NoHolder)];
            Runs(booting, ends) && Outcome(booting, ends).row == Row(Running, UserHolder, None)
  {
    Reboots();
    var booting := Outcome(Fresh, Rebooting);
    var released := Apply(booting, Finalize(0, 7, None, BotHolder));
    Begins(released, BootActivate(true, NoHolder), []);
    Begins(booting, Finalize(0, 7, None, BotHolder), [BootActivate(true, NoHolder)] + []);
  }

  /** A boot that does not keep control ends a lease the user still holds, naming nothing. */
  lemma BootDropsLiveControl()
    ensures Runs(Fresh, Rebooting) && Outcome(Fresh, Rebooting).row.holder.UserHolder?
    ensures var booting := Outcome(Fresh, Rebooting);
            Legal(booting, BootActivate(false, NoHolder))
            && Apply(booting, BootActivate(false, NoHolder)).row == Row(Running, NoHolder, None)
  {
    Reboots();
  }

  /** A late error mark hits the claim of the next stop: the row leaves suspending while that stop is under way. */
  lemma LateFailureBreaksAClaim()
    ensures var writes := [StopClaim(1), StopFinish(1), StopClaim(2), StopLateFail];
            && Runs(Fresh, writes)
            && Outcome(Fresh, writes).row.power.Error? && Outcome(Fresh, writes).stopper == Some(2)
  {
    var claimed := Apply(Fresh, StopClaim(1));
    var stopped := Apply(claimed, StopFinish(1));
    var again := Apply(stopped, StopClaim(2));
    Begins(again, StopLateFail, []);
    Begins(stopped, StopClaim(2), [StopLateFail] + []);
    Begins(claimed, StopFinish(1), [StopClaim(2)] + ([StopLateFail] + []));
    Begins(Fresh, StopClaim(1), [StopFinish(1)] + ([StopClaim(2)] + ([StopLateFail] + [])));
    assert [StopClaim(1), StopFinish(1), StopClaim(2), StopLateFail]
        == [StopClaim(1)] + ([StopFinish(1)] + ([StopClaim(2)] + ([StopLateFail] + [])));
  }

  // ----- the execution lease

  datatype RunStatus = Queued | Leased | RunRunning | WaitingInput | WaitingTakeover | Completed | RunFailed | Cancelled

  predicate ActiveRun(status: RunStatus) {
    status.Queued? || status.Leased? || status.RunRunning? || status.WaitingInput? || status.WaitingTakeover?
  }

  datatype Execution = Execution(expiresAt: int, status: Option<RunStatus>)

  predicate ExecutionBlocksUserTakeover(execution: Option<Execution>, now: int) {
    if execution.None? then false
    else if execution.value.status == Some(WaitingTakeover) then false
    else
      var leaseActive := execution.value.expiresAt > now;
      var runActive := execution.value.status.Some? && ActiveRun(execution.value.status.value);
      leaseActive || runActive
  }

  predicate DeletesExecutionLease(execution: Option<Execution>, now: int) {
    && execution.Some?
    && !(execution.value.expiresAt > now)
    && !(execution.value.status.Some? && ActiveRun(execution.value.status.value))
  }

  /**
   An execution lease either has a run waiting for the takeover, or blocks it, or is deleted; one let
   through is still deleted by the later test exactly when no run waits.
   */
  lemma ExecutionLeaseFate(execution: Option<Execution>, checked: int, now: int)
    requires checked <= now && execution.Some?
    ensures !ExecutionBlocksUserTakeover(None, checked)
    ensures var lease := execution.value;
            ExecutionBlocksUserTakeover(execution, checked) <==>
              && lease.status != Some(WaitingTakeover)
              && (lease.expiresAt > checked
                  || lease.status in {Some(RunStatus.Queued), Some(RunStatus.Leased), Some(RunRunning),
                                      Some(WaitingInput)})
    ensures ExecutionBlocksUserTakeover(execution, checked) <==>
              execution.value.status != Some(WaitingTakeover) && !DeletesExecutionLease(execution, checked)
    ensures !ExecutionBlocksUserTakeover(execution, checked) ==>
              (DeletesExecutionLease(execution, now) <==> execution.value.status != Some(WaitingTakeover))
  {
  }
}
