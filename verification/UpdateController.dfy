/**
 The controller that owns the updater: three asynchronous operations, their single-flight
 promises and the updater's events, interleaved at every await (apps/desktop/src/auto-update.ts).
 Each method of the class is one uninterrupted segment between awaits, and `Step` is the same
 segment on values, over which whole runs are proved.
 */
module UpdateController {
  import opened Options
  import opened UpdateState

  /** The promise of the loaded updater: absent, pending, or resolved. */
  datatype Loader = NotLoaded | Loading | Loaded

  /** An await of `updater()`; false is the null it yields when there is none. */
  datatype Wait = Pending | Resolved(loaded: bool)

  datatype CheckTask =
    | NoCheck
    | CheckLoading(wait: Wait, userInitiated: bool)
    | CheckCalling
    | CheckReturned

  datatype DownloadTask = NoDownload | DownloadLoading(downloadWait: Wait) | DownloadCalling | DownloadReturned

  datatype Controller = Controller(
    env: Environment,
    current: State,
    lastCheck: int,
    loader: Loader,
    check: CheckTask,
    download: DownloadTask,
    installsPending: nat,
    installsResolved: nat,
    checkWasRequested: bool,
    installStarted: bool,
    quitting: bool)

  /** What the updater emits; payloads without a usable version or percent carry none. */
  datatype Emission =
    | CheckingForUpdate
    | FoundUpdate(foundVersion: Option<string>)
    | FoundNothing
    | DownloadProgress(percent: Option<real>)
    | UpdateDownloaded(downloadedVersion: Option<string>)
    | UpdaterError(error: string)

  datatype Action =
    | CallCheck(userInitiated: bool, now: int)
    | CheckLoaded(loadedAt: int)
    | CheckSettled(checkError: Option<string>)
    | CheckFinally
    | CallDownload
    | DownloadLoaded
    | DownloadSettled(downloadError: Option<string>)
    | DownloadFinally
    | CallInstall
    | InstallLoaded
    | QuitReturned
    | QuitThrew(quitError: string)
    | LoadSucceeded
    | LoadFailed(loadError: string)
    | Emit(emission: Emission)

  // ----- segments on values

  function Push(c: Controller, event: Event, iso: string): Controller {
    c.(current := Reduce(c.current, event, iso),
       checkWasRequested := c.checkWasRequested && !event.NotAvailable? && !event.Downloaded? && !event.Failed?)
  }

  /** Calling `updater()`: the load it may start. */
  function StartLoad(c: Controller): Controller {
    if Supported(c.env) && c.loader.NotLoaded? then c.(loader := Loading) else c
  }

  function AwaitUpdater(c: Controller): Wait {
    if !Supported(c.env) then Resolved(false)
    else if c.loader.Loaded? then Resolved(true)
    else Pending
  }

  /** A prior empty feed is forgotten by a requested check. */
  predicate ClearsFreeze(c: Controller, now: int) {
    && c.current.phase.Unsupported?
    && Supported(c.env)
    && ShouldCheck(c.current, now, c.lastCheck, c.checkWasRequested, Supported(c.env))
  }

  function StartCheck(c: Controller, now: int): Controller {
    if !ShouldCheck(c.current, now, c.lastCheck, c.checkWasRequested, Supported(c.env)) then c.(check := CheckReturned)
    else
      var thawed :=
        if ClearsFreeze(c, now) then
          c.(current := c.current.(phase := Idle, availableVersion := None, percent := None, message := None),
             lastCheck := 0)
        else c;
      StartLoad(thawed).(check := CheckLoading(AwaitUpdater(thawed), c.checkWasRequested))
  }

  /** The second test passes and the feed is asked. */
  predicate AsksFeed(c: Controller, now: int) {
    && c.check.CheckLoading?
    && c.check.wait == Resolved(true)
    && ShouldCheck(c.current, now, c.lastCheck, c.check.userInitiated, Supported(c.env))
  }

  function Settle(wait: Wait, loaded: bool): Wait {
    if wait.Pending? then Resolved(loaded) else wait
  }

  /** The load's promise settles and everything awaiting it gets the outcome. */
  function FinishLoad(c: Controller, ok: bool): Controller {
    c.(loader := if ok then Loaded else NotLoaded,
       check := if c.check.CheckLoading? then c.check.(wait := Settle(c.check.wait, ok)) else c.check,
       download := if c.download.DownloadLoading? then DownloadLoading(Settle(c.download.downloadWait, ok))
                   else c.download,
       installsPending := 0,
       installsResolved := c.installsResolved + if ok then c.installsPending else 0)
  }

  /** The listener's translation of an emission. */
  function EventOf(emission: Emission, requested: bool): Option<Event> {
    match emission
    case CheckingForUpdate => Some(CheckStart)
    case FoundUpdate(version) =>
      if version.Some? then Some(UpdateAvailable(version.value))
      else Some(Failed("the update feed did not include a version.", requested, false))
    case FoundNothing => Some(NotAvailable)
    case DownloadProgress(percent) => if percent.Some? then Some(Progress(percent.value)) else None
    case UpdateDownloaded(version) =>
      if version.Some? then Some(Downloaded(version.value))
      else Some(Failed("the downloaded update did not include a version.", requested, false))
    case UpdaterError(error) => Some(Failed(error, requested, false))
  }

  predicate Enabled(c: Controller, a: Action) {
    match a
    case CallCheck(_, _) => true
    case CheckLoaded(_) => c.check.CheckLoading? && c.check.wait.Resolved?
    case CheckSettled(_) => c.check.CheckCalling?
    case CheckFinally => c.check.CheckReturned?
    case CallDownload => true
    case DownloadLoaded => c.download.DownloadLoading? && c.download.downloadWait.Resolved?
    case DownloadSettled(_) => c.download.DownloadCalling?
    case DownloadFinally => c.download.DownloadReturned?
    case CallInstall => true
    case InstallLoaded => c.installsResolved > 0
    case QuitReturned => c.quitting
    case QuitThrew(_) => c.quitting
    case LoadSucceeded => c.loader.Loading?
    case LoadFailed(_) => c.loader.Loading?
    case Emit(_) => c.loader.Loaded?
  }

  function Step(c: Controller, a: Action, iso: string): Controller
    requires Enabled(c, a)
  {
    match a
    case CallCheck(userInitiated, now) =>
      var asked := c.(checkWasRequested := c.checkWasRequested || userInitiated);
      if c.check.NoCheck? then StartCheck(asked, now) else asked
    case CheckLoaded(now) =>
      if AsksFeed(c, now) then c.(lastCheck := now, check := CheckCalling) else c.(check := CheckReturned)
    case CheckSettled(error) =>
      var settled := c.(check := CheckReturned);
      if error.Some? && (c.current.phase.Idle? || c.current.phase.Checking?)
      then Push(settled, Failed(error.value, c.checkWasRequested, false), iso) else settled
    case CheckFinally => c.(check := NoCheck)
    case CallDownload =>
      if !c.download.NoDownload? then c
      else if !c.current.phase.Available? then c.(download := DownloadReturned)
      else StartLoad(c).(checkWasRequested := true, download := DownloadLoading(AwaitUpdater(c)))
    case DownloadLoaded =>
      if c.download.downloadWait.loaded && c.current.phase.Available?
      then Push(c, DownloadStart, iso).(download := DownloadCalling) else c.(download := DownloadReturned)
    case DownloadSettled(error) =>
      var settled := c.(download := DownloadReturned);
      if error.Some? && c.current.phase.Downloading?
      then Push(settled, Failed(error.value, c.checkWasRequested, false), iso) else settled
    case DownloadFinally => c.(download := NoDownload)
    case CallInstall =>
      if c.installStarted || !c.current.phase.Ready? then c
      else
        var wait := AwaitUpdater(c);
        if wait.Pending? then StartLoad(c).(installsPending := c.installsPending + 1)
        else if wait.loaded then c.(installsResolved := c.installsResolved + 1)
        else c
    case InstallLoaded =>
      var resumed := c.(installsResolved := c.installsResolved - 1);
      if c.installStarted || !c.current.phase.Ready? then resumed
      else resumed.(installStarted := true, quitting := true)
    case QuitReturned => c.(quitting := false)
    case QuitThrew(error) => Push(c.(quitting := false, installStarted := false), Failed(error, true, true), iso)
    case LoadSucceeded => FinishLoad(c, true)
    case LoadFailed(error) => FinishLoad(Push(c, Failed(error, c.checkWasRequested, false), iso), false)
    case Emit(emission) =>
      var event := EventOf(emission, c.checkWasRequested);
      if event.Some? then Push(c, event.value, iso) else c
  }

  // ----- the class

  class DesktopUpdateController {
    const environment: Environment
    var current: State
    var lastCheck: int
    var loader: Loader
    var check: CheckTask
    var download: DownloadTask
    var installsPending: nat
    var installsResolved: nat
    var checkWasRequested: bool
    var installStarted: bool
    var quitting: bool

    function View(): Controller
      reads this
    {
      Controller(environment, current, lastCheck, loader, check, download, installsPending, installsResolved,
                 checkWasRequested, installStarted, quitting)
    }

    constructor (environment: Environment)
      ensures View() == Start(environment)
    {
      this.environment := environment;
      current, lastCheck, loader := UpdateState.Initial(environment), 0, NotLoaded;
      check, download, installsPending, installsResolved := NoCheck, NoDownload, 0, 0;
      checkWasRequested, installStarted, quitting := false, false, false;
    }

    method PushEvent(event: Event, iso: string)
      modifies this
      ensures View() == Push(old(View()), event, iso)
    {
      current := Reduce(current, event, iso);
      if event.NotAvailable? || event.Downloaded? || event.Failed? {
        checkWasRequested := false;
      }
    }

    method Updater() returns (wait: Wait)
      modifies this`loader
      ensures View() == StartLoad(old(View())) && wait == AwaitUpdater(old(View()))
    {
      if !Supported(environment) {
        return Resolved(false);
      }
      if loader.NotLoaded? {
        loader := Loading;
      }
      wait := if loader.Loaded? then Resolved(true) else Pending;
    }

    method Check(userInitiated: bool, now: int, iso: string)
      modifies this
      ensures View() == Step(old(View()), CallCheck(userInitiated, now), iso)
    {
      if userInitiated {
        checkWasRequested := true;
      }
      if !check.NoCheck? {
        return;
      }
      var requested, supported := checkWasRequested, Supported(environment);
      if !ShouldCheck(current, now, lastCheck, requested, supported) {
        check := CheckReturned;
        return;
      }
      if current.phase.Unsupported? && supported {
        current := current.(phase := Idle, availableVersion := None, percent := None, message := None);
        lastCheck := 0;
      }
      var wait := Updater();
      check := CheckLoading(wait, requested);
    }

    method ResumeCheck(now: int, iso: string) returns (checkForUpdates: bool)
      requires Enabled(View(), CheckLoaded(now))
      modifies this
      ensures View() == Step(old(View()), CheckLoaded(now), iso)
      ensures checkForUpdates == AsksFeed(old(View()), now)
    {
      checkForUpdates := false;
      if check.wait.loaded && ShouldCheck(current, now, lastCheck, check.userInitiated, Supported(environment)) {
        lastCheck := now;
        check := CheckCalling;
        checkForUpdates := true;
      } else {
        check := CheckReturned;
      }
    }

    method FinishCheck(error: Option<string>, iso: string)
      requires Enabled(View(), CheckSettled(error))
      modifies this
      ensures View() == Step(old(View()), CheckSettled(error), iso)
    {
      check := CheckReturned;
      if error.Some? && (current.phase.Idle? || current.phase.Checking?) {
        PushEvent(Failed(error.value, checkWasRequested, false), iso);
      }
    }

    method Download(iso: string)
      modifies this
      ensures View() == Step(old(View()), CallDownload, iso)
    {
      if !download.NoDownload? {
        return;
      }
      if !current.phase.Available? {
        download := DownloadReturned;
        return;
      }
      checkWasRequested := true;
      var wait := Updater();
      download := DownloadLoading(wait);
    }

    method ResumeDownload(iso: string) returns (downloadUpdate: bool)
      requires Enabled(View(), DownloadLoaded)
      modifies this
      ensures View() == Step(old(View()), DownloadLoaded, iso)
      ensures downloadUpdate == download.DownloadCalling?
    {
      if !download.downloadWait.loaded || !current.phase.Available? {
        download := DownloadReturned;
        return false;
      }
      PushEvent(DownloadStart, iso);
      download := DownloadCalling;
      downloadUpdate := true;
    }

    method FinishDownload(error: Option<string>, iso: string)
      requires Enabled(View(), DownloadSettled(error))
      modifies this
      ensures View() == Step(old(View()), DownloadSettled(error), iso)
    {
      download := DownloadReturned;
      if error.Some? && current.phase.Downloading? {
        PushEvent(Failed(error.value, checkWasRequested, false), iso);
      }
    }

    method Install(iso: string)
      modifies this
      ensures View() == Step(old(View()), CallInstall, iso)
    {
      if installStarted || !current.phase.Ready? {
        return;
      }
      var wait := Updater();
      match wait
      case Pending => installsPending := installsPending + 1;
      case Resolved(loaded) =>
        if loaded {
          installsResolved := installsResolved + 1;
        }
    }

    method ResumeInstall(iso: string) returns (quitAndInstall: bool)
      requires Enabled(View(), InstallLoaded)
      modifies this
      ensures View() == Step(old(View()), InstallLoaded, iso)
      ensures quitAndInstall <==> !old(installStarted) && installStarted
    {
      installsResolved := installsResolved - 1;
      if installStarted || !current.phase.Ready? {
        return false;
      }
      installStarted, quitting := true, true;
      quitAndInstall := true;
    }

    method QuitAndInstallThrew(error: string, iso: string)
      requires Enabled(View(), QuitThrew(error))
      modifies this
      ensures View() == Step(old(View()), QuitThrew(error), iso)
    {
      quitting, installStarted := false, false;
      PushEvent(Failed(error, true, true), iso);
    }

    method QuitAndInstallReturned(iso: string)
      requires Enabled(View(), QuitReturned)
      modifies this
      ensures View() == Step(old(View()), QuitReturned, iso)
    {
      quitting := false;
    }

    /** The load's `then` (ok) or `catch` (not ok): everything awaiting it resumes with the outcome. */
    method LoadFinished(error: Option<string>, iso: string)
      requires loader.Loading?
      modifies this
      ensures View() == Step(old(View()), if error.None? then LoadSucceeded else LoadFailed(error.value), iso)
    {
      if error.Some? {
        PushEvent(Failed(error.value, checkWasRequested, false), iso);
      }
      SettleLoad(error.None?);
    }

    /** The load's promise settles. */
    method SettleLoad(ok: bool)
      modifies this
      ensures View() == FinishLoad(old(View()), ok)
    {
      loader := if ok then Loaded else NotLoaded;
      if check.CheckLoading? && check.wait.Pending? {
        check := check.(wait := Resolved(ok));
      }
      if download.DownloadLoading? && download.downloadWait.Pending? {
        download := DownloadLoading(Resolved(ok));
      }
      if ok {
        installsResolved := installsResolved + installsPending;
      }
      installsPending := 0;
    }

    method Listen(emission: Emission, iso: string)
      requires loader.Loaded?
      modifies this
      ensures View() == Step(old(View()), Emit(emission), iso)
    {
      match emission
      case CheckingForUpdate => PushEvent(CheckStart, iso);
      case FoundUpdate(version) =>
        if version.None? {
          PushEvent(Failed("the update feed did not include a version.", checkWasRequested, false), iso);
        } else {
          PushEvent(UpdateAvailable(version.value), iso);
        }
      case FoundNothing => PushEvent(NotAvailable, iso);
      case DownloadProgress(percent) =>
        if percent.Some? {
          PushEvent(Progress(percent.value), iso);
        }
      case UpdateDownloaded(version) =>
        if version.Some? {
          PushEvent(Downloaded(version.value), iso);
        } else {
          PushEvent(Failed("the downloaded update did not include a version.", checkWasRequested, false), iso);
        }
      case UpdaterError(error) => PushEvent(Failed(error, checkWasRequested, false), iso);
    }

    /** The `finally` of the two single-flight promises. */
    method CheckFinished(iso: string)
      requires Enabled(View(), CheckFinally)
      modifies this
      ensures View() == Step(old(View()), CheckFinally, iso)
    {
      check := NoCheck;
    }

    method DownloadFinished(iso: string)
      requires Enabled(View(), DownloadFinally)
      modifies this
      ensures View() == Step(old(View()), DownloadFinally, iso)
    {
      download := NoDownload;
    }
  }

  // ----- whole runs

  datatype Entry =
    /** `checkForUpdates` was called. */
    | Called(at: int)
    /** A frozen controller was thawed; `asked` when a user asked for a check since it froze. */
    | Thawed(asked: bool)

  datatype System = System(c: Controller, log: seq<Entry>, clock: int, asked: bool, quits: int)

  function Start(env: Environment): Controller {
    Controller(env, Initial(env), 0, NotLoaded, NoCheck, NoDownload, 0, 0, false, false, false)
  }

  function StartSystem(env: Environment): System {
    System(Start(env), [], 0, false, 0)
  }

  function TimeOf(a: Action): Option<int> {
    match a
    case CallCheck(_, now) => Some(now)
    case CheckLoaded(now) => Some(now)
    case _ => None
  }

  /** The clock is positive and never goes back. */
  predicate Allowed(s: System, a: Action) {
    Enabled(s.c, a) && (TimeOf(a).Some? ==> TimeOf(a).value > 0 && TimeOf(a).value >= s.clock)
  }

  function Asked(s: System, a: Action): bool {
    s.asked || (a.CallCheck? && a.userInitiated)
  }

  function LogOf(s: System, a: Action): seq<Entry> {
    match a
    case CallCheck(userInitiated, now) =>
      if s.c.check.NoCheck? && ClearsFreeze(s.c.(checkWasRequested := s.c.checkWasRequested || userInitiated), now)
      then s.log + [Thawed(Asked(s, a))] else s.log
    case CheckLoaded(now) => if AsksFeed(s.c, now) then s.log + [Called(now)] else s.log
    case _ => s.log
  }

  function Advance(s: System, a: Action, iso: string): System
    requires Allowed(s, a)
  {
    var c := Step(s.c, a, iso);
    var froze := c.current.phase.Unsupported? && !s.c.current.phase.Unsupported?;
    var started := c.installStarted && !s.c.installStarted;
    System(c, LogOf(s, a),
           if TimeOf(a).Some? then TimeOf(a).value else s.clock,
           Asked(s, a) && !froze,
           s.quits + (if started then 1 else 0) - (if a.QuitThrew? then 1 else 0))
  }

  /** No thaw lies between two entries of the log. */
  ghost predicate Unbroken(log: seq<Entry>, i: int, j: int) {
    forall k :: i < k < j && 0 <= k < |log| ==> !log[k].Thawed?
  }

  ghost predicate Spaced(log: seq<Entry>) {
    forall i, j :: 0 <= i < j < |log| && log[i].Called? && log[j].Called? && Unbroken(log, i, j)
      ==> log[j].at - log[i].at >= 60000
  }

  /** Renderers see a coherent state; an unsupported install never leaves its initial one. */
  ghost predicate Sound(c: Controller) {
    && Coherent(c.current)
    && (!Supported(c.env) ==> c.current == Initial(c.env) && c.loader.NotLoaded?)
    && (c.quitting ==> c.installStarted && c.current.phase.Ready?)
  }

  ghost predicate RateLimited(s: System) {
    && 0 <= s.c.lastCheck <= s.clock
    && Spaced(s.log)
    && (forall i :: 0 <= i < |s.log| && s.log[i].Called? && Unbroken(s.log, i, |s.log|)
          ==> 0 < s.log[i].at <= s.c.lastCheck)
    && (s.c.check.CheckLoading? && s.c.lastCheck != 0 ==> s.clock - s.c.lastCheck >= MIN_CHECK_INTERVAL_MS)
  }

  ghost predicate UserThaws(s: System) {
    && (s.c.current.phase.Unsupported? && s.c.checkWasRequested ==> s.asked)
    && (forall i :: 0 <= i < |s.log| && s.log[i].Thawed? ==> s.log[i].asked)
  }

  ghost predicate Invariant(s: System) {
    && Sound(s.c)
    && RateLimited(s)
    && UserThaws(s)
    && s.quits == (if s.c.installStarted then 1 else 0)
  }

  /** The events that a step pushes. */
  predicate Pushable(c: Controller, event: Event) {
    && (event.DownloadStart? ==> c.current.phase.Available?)
    && (event.Failed? && event.installFailed ==> !c.quitting)
  }

  lemma PushSound(c: Controller, event: Event, iso: string)
    requires Sound(c) && Pushable(c, event)
    ensures Sound(Push(c, event, iso))
    ensures Push(c, event, iso).current.phase.Unsupported? ==>
              !Push(c, event, iso).checkWasRequested || c.current.phase.Unsupported?
  {
    ReduceKeepsCoherent(c.current, event, iso);
    if c.current.phase.Ready? {
      ReadyIsSticky(c.current, event, iso);
    }
  }

  lemma EmittedEvents(emission: Emission, requested: bool)
    ensures var event := EventOf(emission, requested);
            event.Some? ==> !event.value.DownloadStart? && (event.value.Failed? ==> !event.value.installFailed)
  {
  }

  /** The event a step pushes, if any. */
  function PushedBy(c: Controller, a: Action): Option<Event> {
    match a
    case CheckSettled(error) =>
      if error.Some? && (c.current.phase.Idle? || c.current.phase.Checking?)
      then Some(Failed(error.value, c.checkWasRequested, false)) else None
    case DownloadLoaded =>
      if c.download.DownloadLoading? && c.download.downloadWait == Resolved(true) && c.current.phase.Available?
      then Some(DownloadStart) else None
    case DownloadSettled(error) =>
      if error.Some? && c.current.phase.Downloading? then Some(Failed(error.value, c.checkWasRequested, false))
      else None
    case QuitThrew(error) => Some(Failed(error, true, true))
    case LoadFailed(error) => Some(Failed(error, c.checkWasRequested, false))
    case Emit(emission) => EventOf(emission, c.checkWasRequested)
    case _ => None
  }

  /** What a step can do to the renderer's state and to the request flag. */
  lemma StepIsPush(c: Controller, a: Action, iso: string)
    requires Enabled(c, a) && !a.CallCheck?
    ensures var next := Step(c, a, iso);
            if PushedBy(c, a).None? then
              && next.current == c.current
              && next.checkWasRequested == (c.checkWasRequested ||
                   (a.CallDownload? && c.download.NoDownload? && c.current.phase.Available?))
            else
              && next.current == Push(c, PushedBy(c, a).value, iso).current
              && next.checkWasRequested == Push(c, PushedBy(c, a).value, iso).checkWasRequested
  {
  }

  lemma StepFrame(c: Controller, a: Action, iso: string)
    requires Enabled(c, a)
    ensures var next := Step(c, a, iso);
            && (!a.CallCheck? && !a.CheckLoaded? ==>
                  next.lastCheck == c.lastCheck && (next.check.CheckLoading? ==> c.check.CheckLoading?))
  {
  }

  lemma LoaderFrame(c: Controller, a: Action, iso: string)
    requires Enabled(c, a)
    ensures Step(c, a, iso).env == c.env
    ensures !Supported(c.env) && c.loader.NotLoaded? ==> Step(c, a, iso).loader.NotLoaded?
  {
  }

  lemma InstallFrame(c: Controller, a: Action, iso: string)
    requires Enabled(c, a)
    ensures var next := Step(c, a, iso);
            if a.InstallLoaded? && !c.installStarted && c.current.phase.Ready? then next.installStarted && next.quitting
            else if a.QuitThrew? then !next.installStarted && !next.quitting
            else next.installStarted == c.installStarted && next.quitting == (c.quitting && !a.QuitReturned?)
  {
  }

  lemma StepSound(c: Controller, a: Action, iso: string)
    requires Enabled(c, a) && Sound(c)
    ensures Sound(Step(c, a, iso))
  {
    LoaderFrame(c, a, iso);
    InstallFrame(c, a, iso);
    if !a.CallCheck? {
      StepIsPush(c, a, iso);
      var event := PushedBy(c, a);
      if event.Some? {
        if a.Emit? {
          EmittedEvents(a.emission, c.checkWasRequested);
        }
        var before := if a.QuitThrew? then c.(quitting := false) else c;
        PushSound(before, event.value, iso);
      }
    }
  }

  /** Ready is left only when `quitAndInstall` throws, and then for error. */
  lemma ReadyExit(c: Controller, a: Action, iso: string)
    requires Enabled(c, a) && c.current.phase.Ready?
    ensures if a.QuitThrew? then Step(c, a, iso).current.phase.Error? else Step(c, a, iso).current.phase.Ready?
  {
    if !a.CallCheck? {
      StepIsPush(c, a, iso);
      var event := PushedBy(c, a);
      if event.Some? {
        if a.Emit? {
          EmittedEvents(a.emission, c.checkWasRequested);
        }
        ReadyIsSticky(c.current, event.value, iso);
      }
    }
  }

  /** The feed is never asked over an offer, a download or a ready update. */
  lemma AskedOnlyWhenNothingIsOffered(c: Controller, now: int)
    requires AsksFeed(c, now)
    ensures c.current.phase.Idle? || c.current.phase.Error? || c.current.phase.Unsupported?
  {
  }

  lemma CheckTimes(s: System, a: Action, iso: string)
    requires RateLimited(s) && Allowed(s, a) && (a.CallCheck? || a.CheckLoaded?)
    ensures var next := Advance(s, a, iso);
            && 0 <= next.c.lastCheck <= next.clock
            && (next.c.check.CheckLoading? && next.c.lastCheck != 0 ==>
                  next.clock - next.c.lastCheck >= MIN_CHECK_INTERVAL_MS)
            && (next.log == s.log ==> next.c.lastCheck == s.c.lastCheck)
            && (next.log != s.log ==>
                  var entry := if a.CallCheck? then Thawed(Asked(s, a)) else Called(a.loadedAt);
                  && next.log == s.log + [entry]
                  && (entry.Called? ==>
                        && next.c.lastCheck == entry.at > 0
                        && (s.c.lastCheck == 0 || entry.at - s.c.lastCheck >= MIN_CHECK_INTERVAL_MS)))
  {
  }

  lemma Extend(log: seq<Entry>, entry: Entry, last: int)
    requires Spaced(log)
    requires forall i :: 0 <= i < |log| && log[i].Called? && Unbroken(log, i, |log|) ==> 0 < log[i].at <= last
    requires entry.Called? && last != 0 ==> entry.at - last >= MIN_CHECK_INTERVAL_MS
    ensures Spaced(log + [entry])
    ensures var longer := log + [entry];
            forall i | 0 <= i < |longer| && longer[i].Called? && Unbroken(longer, i, |longer|) ::
              entry.Called? && (entry.at > 0 ==> 0 < longer[i].at <= entry.at)
  {
    var longer := log + [entry];
    forall i, j | 0 <= i < j < |longer| && longer[i].Called? && longer[j].Called? && Unbroken(longer, i, j)
      ensures longer[j].at - longer[i].at >= MIN_CHECK_INTERVAL_MS
    {
      assert forall k :: 0 <= k < |log| ==> longer[k] == log[k];
      assert Unbroken(log, i, j);
    }
    forall i | 0 <= i < |log| && longer[i].Called? && Unbroken(longer, i, |longer|)
      ensures entry.Called? && Unbroken(log, i, |log|)
    {
      assert longer[|log|] == entry;
      assert forall k :: 0 <= k < |log| ==> longer[k] == log[k];
    }
  }

  lemma AdvanceRateLimited(s: System, a: Action, iso: string)
    requires RateLimited(s) && Allowed(s, a)
    ensures RateLimited(Advance(s, a, iso))
  {
    if a.CallCheck? || a.CheckLoaded? {
      CheckTimes(s, a, iso);
      var next := Advance(s, a, iso);
      if next.log != s.log {
        Extend(s.log, next.log[|s.log|], s.c.lastCheck);
      }
    } else {
      StepFrame(s.c, a, iso);
    }
  }

  lemma AdvanceUserThaws(s: System, a: Action, iso: string)
    requires Sound(s.c) && UserThaws(s) && Allowed(s, a)
    ensures UserThaws(Advance(s, a, iso))
  {
    if !a.CallCheck? {
      StepIsPush(s.c, a, iso);
      var event := PushedBy(s.c, a);
      if event.Some? {
        if a.Emit? {
          EmittedEvents(a.emission, s.c.checkWasRequested);
        }
        PushSound(if a.QuitThrew? then s.c.(quitting := false) else s.c, event.value, iso);
      }
    }
  }

  lemma AdvanceKeepsInvariant(s: System, a: Action, iso: string)
    requires Invariant(s) && Allowed(s, a)
    ensures Invariant(Advance(s, a, iso)) && Advance(s, a, iso).c.env == s.c.env
  {
    LoaderFrame(s.c, a, iso);
    InstallFrame(s.c, a, iso);
    StepSound(s.c, a, iso);
    AdvanceRateLimited(s, a, iso);
    AdvanceUserThaws(s, a, iso);
  }

  ghost predicate Runs(s: System, steps: seq<(Action, string)>)
    decreases |steps|
  {
    steps == [] || (Allowed(s, steps[0].0) && Runs(Advance(s, steps[0].0, steps[0].1), steps[1..]))
  }

  ghost function Outcome(s: System, steps: seq<(Action, string)>): System
    requires Runs(s, steps)
    decreases |steps|
  {
    if steps == [] then s else Outcome(Advance(s, steps[0].0, steps[0].1), steps[1..])
  }

  lemma {:induction false} RunKeepsInvariant(s: System, steps: seq<(Action, string)>)
    requires Invariant(s) && Runs(s, steps)
    ensures Invariant(Outcome(s, steps)) && Outcome(s, steps).c.env == s.c.env
    decreases |steps|
  {
    if steps != [] {
      AdvanceKeepsInvariant(s, steps[0].0, steps[0].1);
      RunKeepsInvariant(Advance(s, steps[0].0, steps[0].1), steps[1..]);
    }
  }

  /** Every interleaving from construction on. */
  lemma EveryRun(env: Environment, steps: seq<(Action, string)>)
    requires Runs(StartSystem(env), steps)
    ensures var s := Outcome(StartSystem(env), steps);
            && (s.c.current.percent.Some? <==> s.c.current.phase == Downloading || s.c.current.phase == Ready)
            && (s.c.current.percent.Some? ==> 0 <= s.c.current.percent.value <= 100)
            && (s.c.current.phase in {Available, Downloading, Ready} ==> s.c.current.availableVersion.Some?)
            && Spaced(s.log)
            && (forall i :: 0 <= i < |s.log| && s.log[i].Thawed? ==> s.log[i].asked)
            && 0 <= s.quits <= 1
            && (!Supported(env) ==> s.c.current == Initial(env) && s.log == [])
  {
    RunKeepsInvariant(StartSystem(env), steps);
    if !Supported(env) {
      UnsupportedRun(StartSystem(env), steps);
    }
  }

  // ----- what a segment must do

  /** The first test of a check: what it starts, and that only a request over a frozen install thaws it. */
  lemma CheckStartsExactly(s: System, user: bool, now: int, iso: string)
    requires Allowed(s, CallCheck(user, now)) && s.c.check == NoCheck
    ensures var next, requested, on := Advance(s, CallCheck(user, now), iso), s.c.checkWasRequested || user,
                                       Supported(s.c.env);
            var thaws := s.c.current.phase == Unsupported && requested && on;
            var due := (s.c.current.phase == Idle || s.c.current.phase == Error)
                       && (s.c.lastCheck == 0 || now - s.c.lastCheck >= 60000);
            && next.c.checkWasRequested == requested
            && (!thaws && !due ==> next.c.check == CheckReturned && next.c.current == s.c.current && next.log == s.log)
            && (thaws || due ==>
                  && next.c.check.CheckLoading? && next.c.check.userInitiated == requested
                  && next.c.check.wait == (if !on then Resolved(false) else if s.c.loader == Loaded then Resolved(true)
                                           else Pending)
                  && (on && s.c.loader == NotLoaded ==> next.c.loader == Loading))
            && (due ==> next.c.current == s.c.current && next.c.lastCheck == s.c.lastCheck && next.log == s.log)
            && (thaws ==>
                  && next.c.current == State(Idle, s.c.current.currentVersion, None, None, None, s.c.current.checkedAt)
                  && next.c.lastCheck == 0 && next.log == s.log + [Thawed(s.asked || user)])
  {
  }

  /** What the log calls asked: a user has asked for a check, and the install has not frozen since. */
  lemma AskedSinceFrozen(env: Environment, s: System, a: Action, iso: string)
    requires Allowed(s, a)
    ensures !StartSystem(env).asked && StartSystem(env).log == []
    ensures var next := Advance(s, a, iso);
            next.asked <==>
              && (s.asked || (a.CallCheck? && a.userInitiated))
              && (next.c.current.phase != Unsupported || s.c.current.phase == Unsupported)
  {
  }

  /** A check that resumes with a loaded updater asks the feed exactly when it is still due, whoever started it. */
  lemma AsksExactly(s: System, now: int, iso: string)
    requires Allowed(s, CheckLoaded(now))
    ensures s.c.check.CheckLoading? && s.c.check.wait.Resolved?
    ensures var next := Advance(s, CheckLoaded(now), iso);
            var due := && s.c.check.wait == Resolved(true)
                       && (((s.c.current.phase == Idle || s.c.current.phase == Error)
                            && (s.c.lastCheck == 0 || now - s.c.lastCheck >= 60000))
                           || (s.c.current.phase == Unsupported && s.c.check.userInitiated && Supported(s.c.env)));
            && next.log == s.log + (if due then [Called(now)] else [])
            && next.c == s.c.(check := if due then CheckCalling else CheckReturned,
                              lastCheck := if due then now else s.c.lastCheck)
  {
  }

  /** From construction on, the first check of a supported install asks the feed once, background or not. */
  lemma FirstCheckAsks(env: Environment, user: bool, called: int, loaded: int, iso: string)
    requires env.packaged && !env.disabled && !env.linux && !env.configMissing && 0 < called <= loaded
    ensures var steps := [(CallCheck(user, called), iso), (LoadSucceeded, iso), (CheckLoaded(loaded), iso)];
            Runs(StartSystem(env), steps) && Outcome(StartSystem(env), steps).log == [Called(loaded)]
  {
    var s := StartSystem(env);
    var first, second, third := (CallCheck(user, called), iso), (LoadSucceeded, iso), (CheckLoaded(loaded), iso);
    CheckStartsExactly(s, user, called, iso);
    var s1 := Advance(s, first.0, iso);
    var s2 := Advance(s1, second.0, iso);
    AsksExactly(s2, loaded, iso);
    RunsOne(s2, third, []);
    RunsOne(s1, second, [third] + []);
    RunsOne(s, first, [second] + ([third] + []));
    assert [first, second, third] == [first] + ([second] + ([third] + []));
  }

  lemma RunsOne(s: System, step: (Action, string), rest: seq<(Action, string)>)
    requires Allowed(s, step.0) && Runs(Advance(s, step.0, step.1), rest)
    ensures Runs(s, [step] + rest)
    ensures Outcome(s, [step] + rest) == Outcome(Advance(s, step.0, step.1), rest)
  {
    assert ([step] + rest)[1..] == rest;
  }

  /** An offer that is still there when the updater is loaded is downloaded, for the user who asked. */
  lemma DownloadsExactly(c: Controller, iso: string)
    requires Enabled(c, DownloadLoaded)
    ensures var next := Step(c, DownloadLoaded, iso);
            if c.download.downloadWait == Resolved(true) && c.current.phase == Available then
              && next.download == DownloadCalling && next.current.phase == Downloading
              && next.current.availableVersion == c.current.availableVersion && next.current.percent == Some(0)
            else next == c.(download := DownloadReturned)
    ensures c.download == DownloadLoading(c.download.downloadWait)
  {
  }

  lemma DownloadStartsExactly(c: Controller, iso: string)
    ensures var next := Step(c, CallDownload, iso);
            && (c.download != NoDownload ==> next == c)
            && (c.download == NoDownload && c.current.phase != Available ==> next == c.(download := DownloadReturned))
            && (c.download == NoDownload && c.current.phase == Available ==>
                  && next.checkWasRequested && next.current == c.current && next.download.DownloadLoading?
                  && next.download.downloadWait == (if !Supported(c.env) then Resolved(false)
                                                    else if c.loader == Loaded then Resolved(true) else Pending)
                  && (Supported(c.env) && c.loader == NotLoaded ==> next.loader == Loading))
  {
  }

  /** A ready update is installed by the first call that finds the updater loaded, and by no second one meanwhile. */
  lemma InstallsExactly(c: Controller, iso: string)
    ensures var next := Step(c, CallInstall, iso);
            && next.current == c.current && next.installStarted == c.installStarted
            && next.installsResolved == c.installsResolved
                 + (if !c.installStarted && c.current.phase == Ready && Supported(c.env) && c.loader == Loaded
                    then 1 else 0)
            && next.installsPending == c.installsPending
                 + (if !c.installStarted && c.current.phase == Ready && Supported(c.env) && c.loader != Loaded
                    then 1 else 0)
    ensures Enabled(c, InstallLoaded) ==>
              var next := Step(c, InstallLoaded, iso);
              && next.installsResolved == c.installsResolved - 1 && next.current == c.current
              && next.quitting == (c.quitting || (!c.installStarted && c.current.phase == Ready))
              && next.installStarted == (c.installStarted || c.current.phase == Ready)
  {
  }

  /** An operation that has returned makes room for the next one. */
  lemma OperationsEnd(c: Controller, error: Option<string>, iso: string)
    ensures c.check == CheckCalling ==> Step(c, CheckSettled(error), iso).check == CheckReturned
    ensures c.check == CheckReturned ==> Step(c, CheckFinally, iso) == c.(check := NoCheck)
    ensures c.download == DownloadCalling ==> Step(c, DownloadSettled(error), iso).download == DownloadReturned
    ensures c.download == DownloadReturned ==> Step(c, DownloadFinally, iso) == c.(download := NoDownload)
    ensures c.quitting ==> Step(c, QuitReturned, iso) == c.(quitting := false)
  {
  }

  /** The load's outcome reaches every check, download and install that waited for it. */
  lemma LoadReaches(c: Controller, ok: bool, error: string, iso: string)
    requires c.loader == Loading
    ensures var next := Step(c, if ok then LoadSucceeded else LoadFailed(error), iso);
            && next.loader == (if ok then Loaded else NotLoaded)
            && (c.check.CheckLoading? && c.check.wait == Pending ==>
                  next.check == CheckLoading(Resolved(ok), c.check.userInitiated))
            && (c.check.CheckLoading? && c.check.wait != Pending ==> next.check == c.check)
            && (c.download == DownloadLoading(Pending) ==> next.download == DownloadLoading(Resolved(ok)))
            && next.installsPending == 0
            && next.installsResolved == c.installsResolved + (if ok then c.installsPending else 0)
  {
  }

  /** What the updater finds is shown with its version; an offer keeps the request, a download settles it. */
  lemma FindingsShown(c: Controller, version: string, iso: string)
    requires c.loader == Loaded && c.current.phase in {Idle, Checking, Available, Error}
    ensures var offered := Step(c, Emit(FoundUpdate(Some(version))), iso);
            && offered.current.phase == Available && offered.current.availableVersion == Some(version)
            && offered.checkWasRequested == c.checkWasRequested
    ensures var downloaded := Step(c, Emit(UpdateDownloaded(Some(version))), iso);
            && downloaded.current.phase == Ready && downloaded.current.availableVersion == Some(version)
            && !downloaded.checkWasRequested
  {
  }

  /** Nothing found settles the request as well; a check that starts, and progress without a number, do not. */
  lemma ListenerShown(c: Controller, iso: string)
    requires c.loader == Loaded && c.current.phase in {Idle, Checking, Available, Error}
    ensures var nothing := Step(c, Emit(FoundNothing), iso);
            && nothing.current.phase == Idle && nothing.current.availableVersion == None
            && nothing.current.checkedAt == Some(iso) && !nothing.checkWasRequested
    ensures c.current.phase != Available ==> Step(c, Emit(CheckingForUpdate), iso).current.phase == Checking
    ensures Step(c, Emit(DownloadProgress(None)), iso) == c
  {
  }

  /** Where an operation fails, and who is told: the user of a pending request, of an outage as well. */
  lemma FailuresShown(c: Controller, error: string, iso: string)
    ensures var shown := Reduce(c.current, Failed(error, c.checkWasRequested, false), iso);
            && (c.check == CheckCalling ==>
                  var next := Step(c, CheckSettled(Some(error)), iso);
                  if c.current.phase == Idle || c.current.phase == Checking
                  then next.current == shown && !next.checkWasRequested else next.current == c.current)
            && (c.download == DownloadCalling ==>
                  var next := Step(c, DownloadSettled(Some(error)), iso);
                  if c.current.phase == Downloading
                  then next.current == shown && !next.checkWasRequested else next.current == c.current)
            && (c.loader == Loading ==>
                  var next := Step(c, LoadFailed(error), iso);
                  next.current == shown && !next.checkWasRequested)
            && (c.loader == Loaded ==>
                  var next := Step(c, Emit(UpdaterError(error)), iso);
                  next.current == shown && !next.checkWasRequested)
            && (c.quitting ==>
                  var next := Step(c, QuitThrew(error), iso);
                  next.current == Reduce(c.current, Failed(error, true, true), iso) && !next.installStarted)
  {
  }

  /** Where updates are unsupported the updater has not been called, and is not about to be. */
  predicate Untouched(s: System) {
    !Supported(s.c.env) && s.log == [] && !CheckingLoaded(s.c)
  }

  lemma CheckFrame(c: Controller, a: Action, iso: string)
    requires Enabled(c, a) && !a.CallCheck? && !a.LoadSucceeded? && !a.LoadFailed?
    ensures Step(c, a, iso).check == c.check || !Step(c, a, iso).check.CheckLoading?
  {
  }

  lemma AdvanceUntouched(s: System, a: Action, iso: string)
    requires Sound(s.c) && Allowed(s, a) && Untouched(s)
    ensures Untouched(Advance(s, a, iso))
  {
    LoaderFrame(s.c, a, iso);
    if a.CallCheck? {
      var asked := s.c.(checkWasRequested := s.c.checkWasRequested || a.userInitiated);
      assert !ClearsFreeze(asked, a.now);
      assert AwaitUpdater(asked) == Resolved(false);
    } else {
      CheckFrame(s.c, a, iso);
      assert LogOf(s, a) == s.log;
    }
  }

  lemma {:induction false} UnsupportedRun(s: System, steps: seq<(Action, string)>)
    requires Invariant(s) && Runs(s, steps)
    ensures Untouched(s) ==> Untouched(Outcome(s, steps))
    decreases |steps|
  {
    if steps != [] && Untouched(s) {
      AdvanceKeepsInvariant(s, steps[0].0, steps[0].1);
      AdvanceUntouched(s, steps[0].0, steps[0].1);
      UnsupportedRun(Advance(s, steps[0].0, steps[0].1), steps[1..]);
    }
  }

  predicate CheckingLoaded(c: Controller) {
    c.check.CheckLoading? && c.check.wait == Resolved(true)
  }
}
