/**
 Changing the server of the desktop shell: `desktop.setup.save` and the functions it uses in
 apps/desktop/src/main.ts, with the setup file of apps/desktop/src/setup-store.ts. A script fixes
 how everything outside answers; windows are numbered in creation order.
 */
module ServerSwitch {
  import opened Options

  datatype Setup = Setup(serverUrl: nat, localInstance: bool)

  datatype Opening = DocumentFails | LoadFails | Loads

  /** Where the renderer of the new window stops, if it does. */
  datatype Crash = NoCrash | WhileWriting | AfterCommit | AfterSetupClosed

  /** The steps of writing the setup file; the one that fails, if any. */
  datatype WriteStep =
    MakeDirectory | OpenTemporary | WriteTemporary | SyncTemporary | CloseTemporary | Rename | Written

  datatype Script = Script(parsed: Option<Setup>, reachable: bool, opening: Opening, closesSetup: bool,
                           write: WriteStep, crash: Crash, rollback: WriteStep)

  datatype Reply = Busy | Saved | Invalid | Unreachable | NotOpened | Restored | Kept | Recovered

  datatype Abandoned = RestoredPrevious | KeptNew

  /** Disk, memory and windows between two saves. */
  datatype View = View(disk: Option<Setup>, setup: Option<Setup>, url: Option<nat>, main: Option<nat>,
                       loaded: Option<nat>, next: nat)

  predicate Synced(v: View) {
    v.disk == v.setup
  }

  // ----- what a save promises

  function ReplyTo(v: View, s: Script): Reply {
    if s.parsed.None? then Invalid
    else if !s.reachable then Unreachable
    else if !s.opening.Loads? then NotOpened
    else if !s.write.Written? then (if v.main.Some? then Restored else Kept)
    else if !s.crash.NoCrash? then Recovered
    else Saved
  }

  /** All or nothing, except that a first connection is kept when it cannot be written. */
  function After(v: View, s: Script): View {
    var next := if s.parsed.Some? && s.reachable && !s.opening.DocumentFails? then v.next + 1 else v.next;
    match ReplyTo(v, s)
    case Saved => View(s.parsed, s.parsed, Some(s.parsed.value.serverUrl), Some(v.next), Some(s.parsed.value.serverUrl),
                       next)
    case Kept => View(v.disk, s.parsed, Some(s.parsed.value.serverUrl), Some(v.next), Some(s.parsed.value.serverUrl),
                      next)
    case Recovered =>
      var disk := if s.rollback.Written? then v.setup else s.parsed;
      if s.crash.WhileWriting? then v.(disk := disk, next := next)
      else v.(disk := disk, main := None, loaded := None, next := next)
    case _ => v.(next := next)
  }

  /** How a save is answered. */
  lemma RepliesExactly(v: View, s: Script)
    ensures var reply := ReplyTo(v, s);
            && (reply == Invalid <==> s.parsed == None)
            && (reply == Unreachable <==> s.parsed.Some? && !s.reachable)
            && (reply == NotOpened <==> s.parsed.Some? && s.reachable && s.opening != Loads)
            && (reply == Restored <==>
                s.parsed.Some? && s.reachable && s.opening == Loads && s.write != Written && v.main.Some?)
            && (reply == Kept <==>
                s.parsed.Some? && s.reachable && s.opening == Loads && s.write != Written && v.main == None)
            && (reply == Recovered <==>
                s.parsed.Some? && s.reachable && s.opening == Loads && s.write == Written && s.crash != NoCrash)
            && (reply == Saved <==>
                s.parsed.Some? && s.reachable && s.opening == Loads && s.write == Written && s.crash == NoCrash)
  {
  }

  /** The address, the window and its page after a save follow the setup that is kept. */
  lemma ShownAfter(v: View, s: Script)
    ensures var reply, after := ReplyTo(v, s), After(v, s);
            && (reply == Saved || reply == Kept ==>
                  && after.setup == s.parsed && s.parsed.Some? && after.url == Some(s.parsed.value.serverUrl)
                  && after.loaded == after.url && after.main == Some(v.next))
            && (reply == Saved ==> after.disk == s.parsed) && (reply == Kept ==> after.disk == v.disk)
            && (reply == Recovered ==>
                  && after.setup == v.setup && after.url == v.url
                  && after.disk == (if s.rollback == Written then v.setup else s.parsed)
                  && (if s.crash == WhileWriting then after.main == v.main && after.loaded == v.loaded
                      else after.main == None && after.loaded == None))
            && (reply !in {Saved, Kept, Recovered} ==> after == v.(next := after.next))
            && after.next == v.next + (if s.parsed.Some? && s.reachable && s.opening != DocumentFails then 1 else 0)
  {
  }

  /** A save that leaves disk and memory apart. */
  predicate Splits(v: View, s: Script) {
    || (ReplyTo(v, s).Kept? && v.disk != s.parsed)
    || (ReplyTo(v, s).Recovered? && !s.rollback.Written? && v.setup != s.parsed)
  }

  predicate ChangesNothing(v: View, s: Script) {
    ReplyTo(v, s) in {Invalid, Unreachable, NotOpened, Restored}
  }

  lemma SyncExactly(v: View, s: Script)
    ensures Synced(After(v, s)) <==> if ChangesNothing(v, s) then Synced(v) else !Splits(v, s)
    ensures ReplyTo(v, s).Saved? ==> After(v, s).disk == After(v, s).setup == s.parsed
    ensures !ReplyTo(v, s).Saved? && !ReplyTo(v, s).Kept? ==>
              After(v, s).setup == v.setup && After(v, s).url == v.url
  {
  }

  function AfterAll(v: View, scripts: seq<Script>): View
    decreases |scripts|
  {
    if scripts == [] then v else After(AfterAll(v, scripts[..|scripts| - 1]), scripts[|scripts| - 1])
  }

  predicate Quiet(v: View, scripts: seq<Script>, j: nat)
    requires j < |scripts|
  {
    ChangesNothing(AfterAll(v, scripts[..j]), scripts[j])
  }

  /** The save numbered `i` split disk from memory, and none since has touched them. */
  predicate SplitAt(v: View, scripts: seq<Script>, i: nat)
    requires i < |scripts|
  {
    Splits(AfterAll(v, scripts[..i]), scripts[i]) && forall j :: i < j < |scripts| ==> Quiet(v, scripts, j)
  }

  /** Over any history of saves, disk and memory differ exactly when the last save that changed something split them. */
  lemma {:induction false} HistorySynced(v: View, scripts: seq<Script>)
    requires Synced(v)
    ensures Synced(AfterAll(v, scripts)) <==> forall i :: 0 <= i < |scripts| ==> !SplitAt(v, scripts, i)
    decreases |scripts|
  {
    if scripts != [] {
      var n := |scripts| - 1;
      var front := scripts[..n];
      HistorySynced(v, front);
      SyncExactly(AfterAll(v, front), scripts[n]);
      assert forall i :: 0 <= i <= n ==> front[..i] == scripts[..i];
      assert SplitAt(v, scripts, n) <==> Splits(AfterAll(v, front), scripts[n]);
      forall i | 0 <= i < n
        ensures SplitAt(v, scripts, i) <==> SplitAt(v, front, i) && ChangesNothing(AfterAll(v, front), scripts[n])
      {
        LaterSplit(v, scripts, i);
      }
    }
  }

  lemma QuietBefore(v: View, scripts: seq<Script>, n: nat, j: nat)
    requires j < n <= |scripts|
    ensures Quiet(v, scripts[..n], j) <==> Quiet(v, scripts, j)
  {
    assert scripts[..n][..j] == scripts[..j];
  }

  lemma LaterSplit(v: View, scripts: seq<Script>, i: nat)
    requires i < |scripts| - 1
    ensures var n := |scripts| - 1;
            SplitAt(v, scripts, i) <==>
              SplitAt(v, scripts[..n], i) && ChangesNothing(AfterAll(v, scripts[..n]), scripts[n])
  {
    var n := |scripts| - 1;
    assert scripts[..n][..i] == scripts[..i];
    forall j | i < j < n ensures Quiet(v, scripts[..n], j) <==> Quiet(v, scripts, j) {
      QuietBefore(v, scripts, n, j);
    }
    assert Quiet(v, scripts, n) <==> ChangesNothing(AfterAll(v, scripts[..n]), scripts[n]);
  }

  // ----- the desktop shell

  class Desktop {
    var disk: Option<Setup>
    var temporary: Option<Setup>
    var currentSetup: Option<Setup>
    var currentTargetUrl: Option<nat>
    var mainWindow: Option<nat>
    var pendingPreviousWindow: Option<nat>
    var setupWindow: bool
    var setupSaveInProgress: bool
    // Every app window that is not destroyed, with the address it loaded, and those on screen.
    var live: map<nat, nat>
    var visible: set<nat>
    var next: nat

    predicate Windows()
      reads this
    {
      && (mainWindow.Some? ==> mainWindow.value in live)
      && visible <= live.Keys
      && forall w :: w in live ==> w < next
    }

    /** Between saves: no app window but the main one, and something on screen. */
    predicate Valid()
      reads this
    {
      Resting() && !setupSaveInProgress
    }

    predicate Resting()
      reads this
    {
      && Windows()
      && live.Keys == (if mainWindow.Some? then {mainWindow.value} else {})
      && pendingPreviousWindow.None? && temporary.None?
      && (setupWindow || (mainWindow.Some? && mainWindow.value in visible))
    }

    function Now(): View
      reads this
      requires Windows()
    {
      View(disk, currentSetup, currentTargetUrl, mainWindow,
           if mainWindow.Some? then Some(live[mainWindow.value]) else None, next)
    }

    constructor (saved: Option<Setup>)
      ensures Valid() && Now() == View(saved, saved, None, None, None, 0) && setupWindow
    {
      disk, currentSetup, temporary := saved, saved, None;
      currentTargetUrl, mainWindow, pendingPreviousWindow := None, None, None;
      setupWindow, setupSaveInProgress := true, false;
      live, visible, next := map[], {}, 0;
    }

    method Destroy(win: nat)
      requires Windows() && win in live
      modifies this`live, this`visible, this`mainWindow
      ensures Windows() && live == old(live) - {win} && visible == old(visible) - {win}
      ensures mainWindow == if old(mainWindow) == Some(win) then None else old(mainWindow)
    {
      live := live - {win};
      visible := visible - {win};
      if mainWindow == Some(win) {
        mainWindow := None;
      }
    }

    method ShowSetupWindow()
      modifies this`setupWindow, this`visible
      ensures setupWindow && visible == old(visible) - (if mainWindow.Some? then {mainWindow.value} else {})
    {
      setupWindow := true;
      if mainWindow.Some? {
        visible := visible - {mainWindow.value};
      }
    }

    /** The setup window closes: a connected app window comes back. */
    method SetupWindowClosed()
      requires Windows()
      modifies this`setupWindow, this`visible
      ensures Windows() && !setupWindow
      ensures visible == old(visible) + (if mainWindow.Some? && currentTargetUrl.Some? then {mainWindow.value} else {})
    {
      setupWindow := false;
      if mainWindow.Some? && currentTargetUrl.Some? {
        visible := visible + {mainWindow.value};
      }
    }

    /** The file is replaced as a whole or not at all, and no temporary file stays. */
    method WriteSetup(setup: Setup, failing: WriteStep) returns (ok: bool)
      requires temporary.None?
      modifies this`disk, this`temporary
      ensures ok <==> failing.Written?
      ensures disk == if ok then Some(setup) else old(disk)
      ensures temporary.None?
    {
      if failing.MakeDirectory? {
        return false;
      }
      ok := false;
      if !failing.OpenTemporary? {
        // Created, its content not written yet.
        temporary := Some(Setup(0, false));
        if !failing.WriteTemporary? {
          temporary := Some(setup);
          if !failing.SyncTemporary? && !failing.CloseTemporary? && !failing.Rename? {
            disk, temporary := temporary, None;
            ok := true;
          }
        }
      }
      temporary := None;
    }

    method ClearSetup(failing: WriteStep) returns (ok: bool)
      modifies this`disk
      ensures ok <==> failing.Written?
      ensures disk == if ok then None else old(disk)
    {
      ok := failing.Written?;
      if ok {
        disk := None;
      }
    }

    method CreateWindow(url: nat) returns (win: nat)
      requires Windows()
      modifies this`live, this`visible, this`next, this`mainWindow
      ensures Windows() && win == old(next) && next == win + 1 && mainWindow == Some(win)
      ensures live == old(live)[win := url] && visible == old(visible) + {win}
    {
      win := next;
      next := next + 1;
      live := live[win := url];
      visible := visible + {win};
      mainWindow := Some(win);
    }

    method OpenAppOnce(url: nat, opening: Opening) returns (isOpen: bool)
      requires Windows() && live.Keys == (if mainWindow.Some? then {mainWindow.value} else {})
      modifies this`currentTargetUrl, this`mainWindow, this`pendingPreviousWindow, this`setupWindow
      modifies this`live, this`visible, this`next
      ensures Windows() && (isOpen <==> opening.Loads?)
      ensures next == old(next) + if opening.DocumentFails? then 0 else 1
      ensures isOpen ==>
                && currentTargetUrl == Some(url) && mainWindow == Some(old(next))
                && pendingPreviousWindow == old(mainWindow)
                && live == old(live)[old(next) := url] && old(next) in visible && setupWindow == old(setupWindow)
      ensures !isOpen ==>
                && currentTargetUrl == old(currentTargetUrl) && mainWindow == old(mainWindow)
                && pendingPreviousWindow.None?
                && live == old(live) && setupWindow
    {
      var previous := mainWindow;
      var win: Option<nat> := None;
      isOpen := false;
      if !opening.DocumentFails? {
        var created := CreateWindow(url);
        win := Some(created);
        isOpen := opening.Loads?;
      }
      if isOpen {
        currentTargetUrl := Some(url);
        pendingPreviousWindow := if previous.Some? && previous.value in live && previous != win then previous else None;
        if pendingPreviousWindow.Some? {
          visible := visible - {pendingPreviousWindow.value};
        }
      } else {
        pendingPreviousWindow := None;
        if win.Some? && win.value in live {
          Destroy(win.value);
        }
        if previous.Some? && previous.value in live {
          mainWindow := previous;
        }
        ShowSetupWindow();
      }
    }

    method CommitPendingAppSwitch()
      requires Windows()
      modifies this`pendingPreviousWindow, this`live, this`visible, this`mainWindow
      ensures Windows() && pendingPreviousWindow.None? && mainWindow == old(mainWindow)
      ensures var dropped := if old(pendingPreviousWindow).Some? && old(pendingPreviousWindow) != mainWindow
                             then {old(pendingPreviousWindow).value} else {};
              live == old(live) - dropped && visible == old(visible) - dropped
    {
      var previous := pendingPreviousWindow;
      pendingPreviousWindow := None;
      if previous.Some? && previous.value in live && previous != mainWindow {
        Destroy(previous.value);
      }
    }

    /** Back to the previous window, setup and address if that window is still there. */
    method AbandonPendingAppSwitch(previousSetup: Option<Setup>, previousUrl: Option<nat>) returns (outcome: Abandoned)
      requires Windows()
      modifies this`pendingPreviousWindow, this`live, this`visible, this`mainWindow
      modifies this`currentSetup, this`currentTargetUrl
      ensures Windows() && pendingPreviousWindow.None?
      ensures outcome.RestoredPrevious? <==>
                old(pendingPreviousWindow).Some? && old(pendingPreviousWindow).value in old(live)
      ensures outcome.KeptNew? ==>
                && mainWindow == old(mainWindow) && live == old(live) && visible == old(visible)
                && currentSetup == old(currentSetup) && currentTargetUrl == old(currentTargetUrl)
      ensures outcome.RestoredPrevious? ==>
                && mainWindow == old(pendingPreviousWindow)
                && currentSetup == previousSetup && currentTargetUrl == previousUrl
                && live == old(live) - (if old(mainWindow).Some? && old(mainWindow) != mainWindow
                                        then {old(mainWindow).value} else {})
                && (setupWindow || mainWindow.value in visible)
    {
      var previous := pendingPreviousWindow;
      pendingPreviousWindow := None;
      if previous.None? || previous.value !in live {
        return KeptNew;
      }
      var failed := mainWindow;
      if failed.Some? && failed != previous {
        Destroy(failed.value);
      }
      mainWindow := previous;
      currentSetup := previousSetup;
      currentTargetUrl := previousUrl;
      if !setupWindow {
        visible := visible + {previous.value};
      }
      outcome := RestoredPrevious;
    }

    method RollbackSetupFile(previousSetup: Option<Setup>, failing: WriteStep)
      requires temporary.None?
      modifies this`disk, this`temporary
      ensures temporary.None? && disk == if failing.Written? then previousSetup else old(disk)
    {
      if previousSetup.Some? {
        var _ := WriteSetup(previousSetup.value, failing);
      } else {
        var _ := ClearSetup(failing);
      }
    }

    method RecoverFromCrashedSave(previousSetup: Option<Setup>, previousUrl: Option<nat>, failing: WriteStep)
      requires Windows() && temporary.None? && mainWindow.Some? && pendingPreviousWindow != mainWindow
      modifies this
      ensures Windows() && pendingPreviousWindow.None? && temporary.None? && setupWindow
      ensures currentSetup == previousSetup && currentTargetUrl == previousUrl
      ensures disk == if failing.Written? then previousSetup else old(disk)
      ensures live == old(live) - {old(mainWindow).value}
      ensures mainWindow == if old(pendingPreviousWindow).Some? && old(pendingPreviousWindow).value in old(live)
                            then old(pendingPreviousWindow) else None
      ensures next == old(next) && setupSaveInProgress == old(setupSaveInProgress)
    {
      var outcome := AbandonPendingAppSwitch(previousSetup, previousUrl);
      RollbackSetupFile(previousSetup, failing);
      if outcome.KeptNew? {
        if mainWindow.Some? && mainWindow.value in live {
          Destroy(mainWindow.value);
        }
        mainWindow := None;
        currentSetup := previousSetup;
        currentTargetUrl := previousUrl;
      }
      ShowSetupWindow();
    }

    /** `desktop.setup.save` from the open setup window; a second one while it runs is refused and changes nothing. */
    method SetupSave(s: Script) returns (reply: Reply)
      requires setupSaveInProgress || (Valid() && setupWindow)
      modifies this
      ensures old(setupSaveInProgress) ==> reply.Busy? && unchanged(this)
      ensures !old(setupSaveInProgress) ==>
                && Valid() && reply == ReplyTo(old(Now()), s) && Now() == After(old(Now()), s)
                && (reply !in {Saved, Restored, Kept} ==> setupWindow)
                && (reply.Saved? ==> !setupWindow)
                && live.Keys == (if mainWindow.Some? then {mainWindow.value} else {})
                && (setupWindow || (mainWindow.Some? && mainWindow.value in visible))
                && pendingPreviousWindow == None && temporary == None
    {
      if setupSaveInProgress {
        return Busy;
      }
      setupSaveInProgress := true;
      reply := SaveInProgress(s);
      setupSaveInProgress := false;
    }

    method SaveInProgress(s: Script) returns (reply: Reply)
      requires Resting() && setupSaveInProgress && setupWindow
      modifies this
      ensures Resting() && setupSaveInProgress && reply == ReplyTo(old(Now()), s) && Now() == After(old(Now()), s)
      ensures setupWindow <== reply !in {Saved, Restored, Kept}
      ensures reply.Saved? ==> !setupWindow
    {
      var previousSetup, previousUrl := currentSetup, currentTargetUrl;
      if s.parsed.None? {
        return Invalid;
      }
      var setup := s.parsed.value;
      if !s.reachable {
        return Unreachable;
      }
      currentSetup := Some(setup);
      var isOpen := OpenAppOnce(setup.serverUrl, s.opening);
      if !isOpen {
        currentSetup := previousSetup;
        return NotOpened;
      }
      reply := PersistSwitch(s, setup, previousSetup, previousUrl);
    }

    /** The part of a save after the new window has loaded; the user may close setup during a slow write. */
    method PersistSwitch(s: Script, setup: Setup, previousSetup: Option<Setup>, previousUrl: Option<nat>)
      returns (reply: Reply)
      requires Windows() && setupSaveInProgress && temporary.None? && setupWindow
      requires mainWindow.Some? && mainWindow.value in visible && pendingPreviousWindow != mainWindow
      requires live.Keys
               == {mainWindow.value} + if pendingPreviousWindow.Some? then {pendingPreviousWindow.value} else {}
      requires currentSetup == Some(setup) && currentTargetUrl == Some(setup.serverUrl)
      modifies this
      ensures Resting() && setupSaveInProgress && next == old(next)
      ensures forall w :: w in live ==> w in old(live) && live[w] == old(live)[w]
      ensures reply ==
              if !s.write.Written? then (if old(pendingPreviousWindow).Some? then Restored else Kept)
              else if s.crash.NoCrash? then Saved else Recovered
      ensures reply in {Saved, Kept} ==>
                && currentSetup == Some(setup) && currentTargetUrl == Some(setup.serverUrl)
                && mainWindow == old(mainWindow)
                && disk == if reply.Saved? then Some(setup) else old(disk)
      ensures reply in {Restored, Recovered} ==> currentSetup == previousSetup && currentTargetUrl == previousUrl
      ensures reply.Restored? ==> disk == old(disk) && mainWindow == old(pendingPreviousWindow)
      ensures reply.Recovered? ==>
                && disk == (if s.rollback.Written? then previousSetup else Some(setup))
                && mainWindow == if s.crash.WhileWriting? then old(pendingPreviousWindow) else None
      ensures reply.Saved? ==> !setupWindow
      ensures reply.Recovered? ==> setupWindow
    {
      if s.closesSetup {
        SetupWindowClosed();
      }
      var written := WriteSetup(setup, s.write);
      if !written {
        var outcome := AbandonPendingAppSwitch(previousSetup, previousUrl);
        return if outcome.RestoredPrevious? then Restored else Kept;
      }
      reply := CommitSwitch(s, setup, previousSetup, previousUrl);
    }

    /** After the file is written: commit, close setup, and watch for a crash up to the end. */
    method CommitSwitch(s: Script, setup: Setup, previousSetup: Option<Setup>, previousUrl: Option<nat>)
      returns (reply: Reply)
      requires Windows() && setupSaveInProgress && temporary.None?
      requires mainWindow.Some? && pendingPreviousWindow != mainWindow
      requires live.Keys
               == {mainWindow.value} + if pendingPreviousWindow.Some? then {pendingPreviousWindow.value} else {}
      requires disk == currentSetup == Some(setup) && currentTargetUrl == Some(setup.serverUrl)
      modifies this
      ensures Resting() && setupSaveInProgress && next == old(next)
      ensures forall w :: w in live ==> w in old(live) && live[w] == old(live)[w]
      ensures reply == if s.crash.NoCrash? then Saved else Recovered
      ensures reply.Saved? ==>
                && disk == currentSetup == Some(setup) && currentTargetUrl == Some(setup.serverUrl)
                && mainWindow == old(mainWindow) && !setupWindow
      ensures reply.Recovered? ==>
                && currentSetup == previousSetup && currentTargetUrl == previousUrl && setupWindow
                && disk == (if s.rollback.Written? then previousSetup else Some(setup))
                && mainWindow == if s.crash.WhileWriting? then old(pendingPreviousWindow) else None
    {
      if !s.crash.WhileWriting? {
        CommitPendingAppSwitch();
        if !s.crash.AfterCommit? {
          SetupWindowClosed();
          if !s.crash.AfterSetupClosed? {
            return Saved;
          }
        }
      }
      RecoverFromCrashedSave(previousSetup, previousUrl, s.rollback);
      reply := Recovered;
    }
  }
}
