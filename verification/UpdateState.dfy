/** The desktop updater's visible state and its reducer (apps/desktop/src/auto-update.ts). */
module UpdateState {
  import opened Options

  const MIN_CHECK_INTERVAL_MS := 60000

  datatype Phase = Unsupported | Idle | Checking | Available | Downloading | Ready | Error

  datatype State = State(
    phase: Phase,
    currentVersion: string,
    availableVersion: Option<string>,
    percent: Option<int>,
    message: Option<string>,
    checkedAt: Option<string>)

  /** Absent optional flags take the value that does not disable updates. */
  datatype Environment = Environment(packaged: bool, version: string, disabled: bool, linux: bool, configMissing: bool)

  predicate Supported(env: Environment) {
    !env.disabled && !env.linux && env.packaged && !env.configMissing
  }

  /** Why updates are off for this install. */
  function UnsupportedReason(env: Environment): string
    requires !Supported(env)
  {
    if env.disabled then "Automatic updates are turned off for this install."
    else if env.linux then
      "Automatic updates are not available on Linux. Download releases from the official AIMEE repository."
    else if !env.packaged then "Automatic updates only run in an installed build."
    else "Updates are unavailable in this test build. Install an official AIMEE release to receive updates."
  }

  function Initial(env: Environment): State {
    if Supported(env) then State(Idle, env.version, None, None, None, None)
    else State(Unsupported, env.version, None, None, Some(UnsupportedReason(env)), None)
  }

  // ----- failures

  datatype FailureKind = NoReleases | Offline | Signature | Other
  datatype Failure = Failure(kind: FailureKind, message: Option<string>)

  predicate OccursAt(text: string, needle: string, i: int) {
    0 <= i <= |text| - |needle| && text[i..i + |needle|] == needle
  }

  predicate Includes(text: string, needle: string) {
    exists i :: 0 <= i <= |text| && OccursAt(text, needle, i)
  }

  predicate Mentions(text: string, needles: seq<string>) {
    exists n :: n in needles && Includes(text, n)
  }

  const NO_RELEASES := [
    "404 not found", "no published versions", "cannot find latest.yml", "cannot find latest-mac.yml",
    "unable to find latest version"]
  const OFFLINE := [
    "enotfound", "econnrefused", "econnreset", "etimedout", "eai_again", "enetunreach", "net::err_", "getaddrinfo"]
  const SIGNATURE := ["code sign", "signature", "not signed", "notariz"]
  const TRY_LATER := "The update could not be completed. Try again later."

  /** `text` is the error's text, trimmed and in lower case. */
  function ClassifyUpdaterFailure(text: string): Failure {
    if Mentions(text, NO_RELEASES) then
      Failure(NoReleases, Some("No desktop releases are published for this build yet."))
    else if Mentions(text, OFFLINE) then Failure(Offline, None)
    else if Mentions(text, SIGNATURE) then
      Failure(Signature, Some("This update could not be verified. Reinstall AIMEE from a trusted download."))
    else Failure(Other, Some(TRY_LATER))
  }

  // ----- the reducer

  datatype Event =
    | CheckStart
    | UpdateAvailable(version: string)
    | NotAvailable
    | DownloadStart
    | Progress(percent: real)
    | Downloaded(version: string)
    | Failed(error: string, userInitiated: bool, installFailed: bool)

  /** `Math.round`, then clamped. */
  function RoundedPercent(percent: real): (p: int)
    ensures 0 <= p <= 100
    ensures 0.0 <= percent <= 100.0 ==> -0.5 < p as real - percent <= 0.5
    ensures (percent < 0.0 ==> p == 0) && (percent > 100.0 ==> p == 100)
  {
    var rounded := (percent + 0.5).Floor;
    if rounded < 0 then 0 else if rounded > 100 then 100 else rounded
  }

  function Reduce(state: State, event: Event, now: string): State {
    if state.phase.Unsupported? then state
    else
      match event
      case CheckStart =>
        if state.phase.Available? || state.phase.Downloading? || state.phase.Ready? then state
        else state.(phase := Checking, percent := None, message := None)
      case UpdateAvailable(version) =>
        if state.phase.Downloading? || state.phase.Ready? then state
        else state.(phase := Available, availableVersion := Some(version), percent := None, message := None,
                    checkedAt := Some(now))
      case NotAvailable =>
        if state.phase.Downloading? || state.phase.Ready? then state
        else state.(phase := Idle, availableVersion := None, percent := None, message := None, checkedAt := Some(now))
      case DownloadStart =>
        if state.phase.Ready? then state
        else state.(phase := Downloading, percent := Some(0), message := None)
      case Progress(percent) =>
        if !state.phase.Available? && !state.phase.Downloading? then state
        else state.(phase := Downloading, percent := Some(RoundedPercent(percent)))
      case Downloaded(version) =>
        state.(phase := Ready, availableVersion := Some(version), percent := Some(100),
               message := Some("Restart AIMEE to finish the update."))
      case Failed(error, userInitiated, installFailed) =>
        if state.phase.Ready? && !installFailed then state
        else
          var failure := ClassifyUpdaterFailure(error);
          if failure.kind.NoReleases? && state.phase.Checking? then
            state.(phase := Unsupported, availableVersion := None, percent := None, message := failure.message,
                   checkedAt := Some(now))
          else if failure.kind.NoReleases? then
            state.(phase := Error, percent := None, message := Some(TRY_LATER), checkedAt := Some(now))
          else if failure.kind.Offline? && !installFailed then
            state.(phase := Idle, percent := None, checkedAt := None,
                   message := if userInitiated then Some("Could not reach the update server.") else None)
          else
            state.(phase := Error, percent := None, message := failure.message, checkedAt := Some(now))
  }

  /** Checks never replace an offer that is downloading or ready. */
  predicate ShouldCheck(state: State, now: int, lastCheck: int, userInitiated: bool, environmentSupportsUpdates: bool) {
    if state.phase.Unsupported? then userInitiated && environmentSupportsUpdates
    else if !state.phase.Idle? && !state.phase.Error? then false
    else now - lastCheck >= MIN_CHECK_INTERVAL_MS || lastCheck == 0
  }

  /** What every renderer may rely on. */
  ghost predicate Coherent(s: State) {
    && (s.percent.Some? <==> s.phase.Downloading? || s.phase.Ready?)
    && (s.percent.Some? ==> 0 <= s.percent.value <= 100)
    && (s.phase.Available? || s.phase.Downloading? || s.phase.Ready? ==> s.availableVersion.Some?)
  }

  /** `download-start` alone needs an offer behind it; every other event is safe in any phase. */
  lemma ReduceKeepsCoherent(s: State, event: Event, now: string)
    requires Coherent(s)
    ensures Coherent(Reduce(s, event, now)) <==>
            !(event.DownloadStart? && s.availableVersion.None? && !s.phase.Unsupported?)
    ensures Reduce(s, event, now).currentVersion == s.currentVersion
  {
  }

  /** A verified download survives every event but a failed install. */
  lemma ReadyIsSticky(s: State, event: Event, now: string)
    requires s.phase.Ready?
    ensures if event.Failed? && event.installFailed then Reduce(s, event, now).phase.Error?
            else Reduce(s, event, now).phase.Ready?
  {
  }

  // ----- what the reducer shows

  lemma SupportedExactly(env: Environment)
    ensures Supported(env) <==> env.packaged && !env.disabled && !env.linux && !env.configMissing
    ensures Initial(env).phase == (if Supported(env) then Idle else Unsupported)
    ensures Initial(env).currentVersion == env.version && Initial(env).availableVersion == None
    ensures Initial(env).message.Some? <==> !Supported(env)
  {
  }

  /** An offer or a download carries the version of its event; no other event brings one. */
  lemma VersionShown(s: State, event: Event, now: string)
    ensures var after := Reduce(s, event, now);
            && (event.UpdateAvailable? && s.phase in {Idle, Checking, Available, Error} ==>
                  after == State(Available, s.currentVersion, Some(event.version), None, None, Some(now)))
            && (event.Downloaded? && s.phase != Unsupported ==>
                  && after.phase == Ready && after.availableVersion == Some(event.version)
                  && after.percent == Some(100) && after.checkedAt == s.checkedAt)
            && (event.NotAvailable? && s.phase in {Idle, Checking, Available, Error} ==>
                  after == State(Idle, s.currentVersion, None, None, None, Some(now)))
            && (after.availableVersion != s.availableVersion ==>
                  || ((event.UpdateAvailable? || event.Downloaded?) && after.availableVersion == Some(event.version))
                  || (after.availableVersion == None && (event.NotAvailable? || after.phase == Unsupported)))
            && (after.currentVersion == s.currentVersion)
  {
  }

  /** Which events move which phase, and that a frozen install is moved by none. */
  lemma PhaseShown(s: State, event: Event, now: string)
    ensures var after := Reduce(s, event, now);
            && (s.phase == Unsupported ==> after == s)
            && (event.CheckStart? ==>
                  if s.phase in {Idle, Checking, Error}
                  then after == s.(phase := Checking, percent := None, message := None) else after == s)
            && (event.DownloadStart? && s.phase != Unsupported && s.phase != Ready ==>
                  after == s.(phase := Downloading, percent := Some(0), message := None))
            && (event.Progress? && s.phase in {Available, Downloading} ==>
                  after == s.(phase := Downloading, percent := after.percent) && after.percent.Some?
                  && (0.0 <= event.percent <= 100.0 ==> -0.5 < after.percent.value as real - event.percent <= 0.5))
            && (event.Progress? && s.phase !in {Available, Downloading} ==> after == s)
            && (event.UpdateAvailable? || event.NotAvailable? ==> s.phase in {Downloading, Ready} ==> after == s)
  {
  }

  /** Only a check that found no release freezes the install, and only a user is told of an outage. */
  lemma FailureShown(s: State, error: string, user: bool, install: bool, now: string)
    requires s.phase != Unsupported && (s.phase == Ready ==> install)
    ensures var after, kind := Reduce(s, Failed(error, user, install), now), ClassifyUpdaterFailure(error).kind;
            && after.percent == None
            && (after.phase == Unsupported <==> kind == NoReleases && s.phase == Checking)
            && (after.phase == Idle <==> kind == Offline && !install)
            && (after.phase == Unsupported || after.phase == Idle || after.phase == Error)
            && (after.phase == Idle ==>
                  && (after.message == if user then Some("Could not reach the update server.") else None)
                  && after.checkedAt == None)
            && (after.phase != Idle ==> after.checkedAt == Some(now))
            && (after.phase != Unsupported ==> after.availableVersion == s.availableVersion)
            && (after.phase == Unsupported ==> after.availableVersion == None)
  {
  }

  lemma MentionsExactly(text: string, needles: seq<string>)
    ensures Mentions(text, needles) <==> exists n, i :: n in needles && 0 <= i <= |text| && n <= text[i..]
  {
    if n :| n in needles && Includes(text, n) {
      var i :| 0 <= i <= |text| && OccursAt(text, n, i);
      assert n <= text[i..];
    }
    if n, i :| n in needles && 0 <= i <= |text| && n <= text[i..] {
      assert text[i..i + |n|] == n;
      assert OccursAt(text, n, i);
    }
  }

  /** The kind of a failure is decided by the phrases in its text, those of an absent release first. */
  lemma KindExactly(text: string)
    ensures ClassifyUpdaterFailure(text).kind ==
            if Mentions(text, ["404 not found", "no published versions", "cannot find latest.yml",
                               "cannot find latest-mac.yml", "unable to find latest version"]) then NoReleases
            else if Mentions(text, ["enotfound", "econnrefused", "econnreset", "etimedout", "eai_again", "enetunreach",
                                    "net::err_", "getaddrinfo"]) then Offline
            else if Mentions(text, ["code sign", "signature", "not signed", "notariz"]) then Signature
            else Other
  {
  }

  /** A minute between checks, and none over an offer. */
  lemma ChecksExactly(s: State, now: int, lastCheck: int, user: bool, supported: bool)
    ensures ShouldCheck(s, now, lastCheck, user, supported) <==>
              || (s.phase == Unsupported && user && supported)
              || ((s.phase == Idle || s.phase == Error) && (lastCheck == 0 || now - lastCheck >= 60000))
  {
  }
}
