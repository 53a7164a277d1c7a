/** Properties of the installer drivers modelled in module Downloader. */
module DownloaderLemmas {
  import Gui
  import opened Downloader

  /** Every known command reads back from its spelling, and so does any other word. */
  lemma CommandRoundTrip(c: Command)
    requires c.Unknown? ==> c.arg != "--help" && c.arg != "--install" && c.arg != "--update"
    ensures ParseCommand(Spelling(c)) == c
  {
  }

  /** `--help` shows the usage text and exits 0 without calling any collaborator. */
  lemma HelpRunsNothing(argv: seq<string>, f: Facts)
    requires |argv| >= 2 && argv[1] == "--help"
    ensures ManualScript(argv, f) == Run([Say(Usage)], 0)
  {
    assert FirstRaise([Say(Usage)], f.raising) == 1;
  }

  /** An unrecognised command is reported and exits 1 without calling any collaborator. */
  lemma UnknownCommandRunsNothing(argv: seq<string>, f: Facts)
    requires |argv| >= 2 && argv[1] != "--help" && argv[1] != "--install" && argv[1] != "--update"
    ensures ManualScript(argv, f) == Run([Say(Unrecognised)], 1)
  {
    assert FirstRaise([Say(Unrecognised)], f.raising) == 1;
  }

  /** `--install` runs the setup steps, then install, then the blacklist, and
      exits 0, whether or not the game is already there; an existing marker file
      only adds the reinstallation notice. */
  lemma InstallCommand(argv: seq<string>, f: Facts)
    requires |argv| >= 2 && argv[1] == "--install"
    requires ManualScript(argv, f.(markerExists := false)).exitCode == 0
    ensures ManualScript(argv, f.(markerExists := false))
            == Run([Do(SetupPathScript), Do(SetupBinaries), Do(MarkerExists),
                    Do(Install), Do(ApplyBlacklist), Say(InstallComplete)], 0)
    ensures ManualScript(argv, f.(markerExists := true))
            == Run([Do(SetupPathScript), Do(SetupBinaries), Do(MarkerExists), Say(AlreadyInstalled),
                    Do(Install), Do(ApplyBlacklist), Say(InstallComplete)], 0)
  {
    var absent := ScriptPlan(argv, f.(markerExists := false)).trace;
    var present := ScriptPlan(argv, f.(markerExists := true)).trace;
    assert absent == [Do(SetupPathScript), Do(SetupBinaries), Do(MarkerExists),
                      Do(Install), Do(ApplyBlacklist), Say(InstallComplete)];
    assert present == absent[..3] + [Say(AlreadyInstalled)] + absent[3..];
    assert NoneRaise(absent, f.raising);
    forall i | 0 <= i < |present|
      ensures !Raises(present[i], f.raising)
    {
      if i < 3 { assert present[i] == absent[i]; }
      else if i > 3 { assert present[i] == absent[i - 1]; }
    }
  }

  /** `--update` without the marker file exits 1 and never installs, updates,
      applies the blacklist or touches the version file. */
  lemma UpdateWithoutMarker(argv: seq<string>, f: Facts)
    requires |argv| >= 2 && argv[1] == "--update" && !f.markerExists
    ensures ManualScript(argv, f).exitCode == 1
    ensures Do(Install) !in ManualScript(argv, f).trace
    ensures Do(Update) !in ManualScript(argv, f).trace
    ensures Do(ApplyBlacklist) !in ManualScript(argv, f).trace
    ensures Do(UpdateVersionFile(true)) !in ManualScript(argv, f).trace
  {
    var plan := ScriptPlan(argv, f).trace;
    var r := ManualScript(argv, f);
    assert plan == [Do(SetupPathScript), Do(SetupBinaries), Do(MarkerExists), Say(CannotUpdate)];
    forall i | 0 <= i < |r.trace|
      ensures r.trace[i] != Do(Install) && r.trace[i] != Do(Update)
      ensures r.trace[i] != Do(ApplyBlacklist) && r.trace[i] != Do(UpdateVersionFile(true))
    {
      if r.trace[i] != Say(Crashed) {
        assert r.trace[i] == plan[i];
      }
    }
  }

  /** `--update` with the marker file: a `'reinstall'` answer installs and applies
      the blacklist, any other answer only updates; a run without exceptions exits 0. */
  lemma UpdateWithMarker(argv: seq<string>, f: Facts)
    requires |argv| >= 2 && argv[1] == "--update" && f.markerExists
    requires NoneRaise(ScriptPlan(argv, f).trace, f.raising)
    ensures ManualScript(argv, f).exitCode == 0
    ensures f.check == Reinstall ==>
              && Do(Install) in ManualScript(argv, f).trace
              && Do(ApplyBlacklist) in ManualScript(argv, f).trace
              && Do(Update) !in ManualScript(argv, f).trace
    ensures f.check == NoReinstall ==>
              && Do(Update) in ManualScript(argv, f).trace
              && Do(Install) !in ManualScript(argv, f).trace
              && Do(ApplyBlacklist) !in ManualScript(argv, f).trace
  {
  }

  /** `--update` stores what `update_version_file(True)` returns but never reads
      it: the run is the same whatever that call answers. */
  lemma UpdateIgnoresVersionFile(argv: seq<string>, f: Facts, ok: bool)
    ensures ManualScript(argv, f) == ManualScript(argv, f.(versionFileOk := ok))
  {
  }

  /** A wizard run that ends normally installs (and applies the blacklist) exactly
      when `check_for_updates` said `'reinstall'` or the game is not installed, and
      updates otherwise: it never finishes without a download action. */
  lemma WizardDecision(f: Facts)
    requires Wizard(f).exitCode == 0
    ensures Do(Install) in Wizard(f).trace <==> f.check == Reinstall || !(f.markerExists && f.versionFileOk)
    ensures Do(ApplyBlacklist) in Wizard(f).trace <==> f.check == Reinstall || !(f.markerExists && f.versionFileOk)
    ensures Do(Update) in Wizard(f).trace <==> !(f.check == Reinstall || !(f.markerExists && f.versionFileOk))
    ensures Do(Install) in Wizard(f).trace || Do(Update) in Wizard(f).trace
  {
    assert Wizard(f) == WizardPlan(f);
    WizardPlanShape(f);
    if WizardInstalls(f) {
      assert Do(Install) in WizardPlan(f).trace;
      assert Do(ApplyBlacklist) in WizardPlan(f).trace;
    } else {
      assert Do(Update) in WizardPlan(f).trace;
    }
  }

  /** The wizard fetches the version list and asks for updates on every run that
      gets that far, even when nothing is installed. */
  lemma WizardAlwaysChecks(f: Facts)
    requires Wizard(f).exitCode == 0
    ensures Do(GetVersionList) in Wizard(f).trace
    ensures Do(CheckForUpdates) in Wizard(f).trace
  {
    assert Wizard(f) == WizardPlan(f);
  }

  /** The wizard calls `update_version_file` only when the marker file exists, and
      does call it then unless an earlier call raised. */
  lemma WizardVersionFile(f: Facts)
    ensures Do(UpdateVersionFile(false)) in Wizard(f).trace ==> f.markerExists
    ensures f.markerExists && Wizard(f).exitCode == 0 ==> Do(UpdateVersionFile(false)) in Wizard(f).trace
  {
    if !f.markerExists {
      NoVersionFileWithoutMarker(f);
    } else if Wizard(f).exitCode == 0 {
      assert Wizard(f) == WizardPlan(f);
      assert WizardPlan(f).trace[3] == Do(UpdateVersionFile(false));
    }
  }

  /** Proof helper: without the marker file no run calls `update_version_file`. */
  lemma NoVersionFileWithoutMarker(f: Facts)
    requires !f.markerExists
    ensures Do(UpdateVersionFile(false)) !in Wizard(f).trace
  {
    var plan := WizardPlan(f).trace;
    assert WizardPrefix(f) == [Do(SetupPath), Do(SetupBinaries), Do(MarkerExists), Do(GetVersionList), Do(CheckForUpdates)];
    WizardPlanShape(f);
    assert Do(UpdateVersionFile(false)) !in plan;
    var r := Wizard(f);
    forall i | 0 <= i < |r.trace|
      ensures r.trace[i] != Do(UpdateVersionFile(false))
    {
      if r.trace[i] != Say(Crashed) {
        assert r.trace[i] == plan[i];
      }
    }
  }

  /** The same facts can make the two drivers act differently: with the marker
      present, `update_version_file` answering False and no `'reinstall'`, the
      wizard reinstalls while `--update` only updates. */
  lemma ModesDiverge()
    ensures var f := Facts(true, false, NoReinstall, false, {});
            && Do(Install) in Wizard(f).trace && Do(Update) !in Wizard(f).trace
            && Do(Update) in ManualScript(["TF2CDownloader", "--update"], f).trace
            && Do(Install) !in ManualScript(["TF2CDownloader", "--update"], f).trace
  {
    var f := Facts(true, false, NoReinstall, false, {});
    var argv := ["TF2CDownloader", "--update"];
    assert NoneRaise(WizardPlan(f).trace, f.raising);
    WizardDecision(f);
    assert NoneRaise(ScriptPlan(argv, f).trace, f.raising);
    UpdateWithMarker(argv, f);
  }


  /** In a plan, install is immediately followed by the blacklist and the
      blacklist immediately follows install. */
  predicate Paired(plan: seq<Event>)
  {
    && (forall i :: 0 <= i < |plan| && plan[i] == Do(Install) ==> i + 1 < |plan| && plan[i + 1] == Do(ApplyBlacklist))
    && (forall i :: 0 <= i < |plan| && plan[i] == Do(ApplyBlacklist) ==> 0 < i && plan[i - 1] == Do(Install))
  }

  /** The same pairing in a run, where an install that raises is followed by the
      failure notice instead. */
  predicate BlacklistFollowsInstall(trace: seq<Event>, raising: set<Call>)
  {
    && (forall i :: 0 <= i < |trace| && trace[i] == Do(Install) ==>
          && i + 1 < |trace|
          && (trace[i + 1] == Do(ApplyBlacklist) || (Install in raising && trace[i + 1] == Say(Crashed))))
    && (forall i :: 0 <= i < |trace| && trace[i] == Do(ApplyBlacklist) ==> 0 < i && trace[i - 1] == Do(Install))
  }

  /** A plan whose only install is followed at once by the blacklist is paired,
      and so is a plan with neither. */
  lemma PairedAround(a: seq<Event>, b: seq<Event>)
    requires forall e :: e in a + b ==> e != Do(Install) && e != Do(ApplyBlacklist) && e != Say(Crashed)
    ensures Paired(a + [Do(Install), Do(ApplyBlacklist)] + b)
    ensures Say(Crashed) !in a + [Do(Install), Do(ApplyBlacklist)] + b
    ensures Paired(a + b) && Say(Crashed) !in a + b
  {
    var p := a + [Do(Install), Do(ApplyBlacklist)] + b;
    forall i | 0 <= i < |p|
      ensures p[i] == Do(Install) <==> i == |a|
      ensures p[i] == Do(ApplyBlacklist) <==> i == |a| + 1
      ensures p[i] != Say(Crashed)
    {
      if i < |a| {
        assert p[i] == (a + b)[i] && (a + b)[i] in a + b;
      } else if i > |a| + 1 {
        assert p[i] == (a + b)[i - 2] && (a + b)[i - 2] in a + b;
      }
    }
    forall i | 0 <= i < |a + b|
      ensures (a + b)[i] in a + b
    {
    }
  }

  /** Cutting a paired plan at a raising call keeps the pairing. */
  lemma GuardKeepsPairing(plan: seq<Event>, code: int, raising: set<Call>)
    requires Paired(plan) && Say(Crashed) !in plan
    ensures BlacklistFollowsInstall(Guard(plan, code, raising).trace, raising)
  {
    var t := Guard(plan, code, raising).trace;
    if !NoneRaise(plan, raising) {
      var n := |t|;
      forall i | 0 <= i < n && t[i] == Do(Install)
        ensures i + 1 < n
        ensures t[i + 1] == Do(ApplyBlacklist) || (Install in raising && t[i + 1] == Say(Crashed))
      {
        assert i < n - 1 && t[i] == plan[i];
        if i + 1 < n - 1 {
          assert t[i + 1] == plan[i + 1];
        } else {
          assert Raises(t[n - 2], raising);
        }
      }
      forall i | 0 <= i < n && t[i] == Do(ApplyBlacklist)
        ensures 0 < i && t[i - 1] == Do(Install)
      {
        assert i < n - 1 && t[i] == plan[i];
        assert t[i - 1] == plan[i - 1];
      }
    }
  }

  /** Proof helper: the wizard's plan split at the install or update call. */
  lemma WizardPlanShape(f: Facts)
    ensures WizardInstalls(f) ==>
              WizardPlan(f).trace == WizardPrefix(f) + (if !WizardInstalled(f) then [Say(StartingDownload)] else [])
                                     + [Do(Install), Do(ApplyBlacklist)]
                                     + EndEvents(Gui.MessageEnd(InstallComplete, 0, f.wtSession, false))
    ensures !WizardInstalls(f) ==>
              WizardPlan(f).trace == WizardPrefix(f) + [Do(Update)]
                                     + EndEvents(Gui.MessageEnd(UpdateComplete, 0, f.wtSession, false))
  {
  }

  lemma WizardPlanPaired(f: Facts)
    ensures Paired(WizardPlan(f).trace) && Say(Crashed) !in WizardPlan(f).trace
  {
    WizardPlanShape(f);
    if WizardInstalls(f) {
      PairedAround(WizardPrefix(f) + (if !WizardInstalled(f) then [Say(StartingDownload)] else []),
                   EndEvents(Gui.MessageEnd(InstallComplete, 0, f.wtSession, false)));
    } else {
      PairedAround(WizardPrefix(f) + [Do(Update)], EndEvents(Gui.MessageEnd(UpdateComplete, 0, f.wtSession, false)));
    }
  }

  /** In every run of the wizard the blacklist is applied exactly when install
      ran, immediately after it. */
  lemma WizardPairsBlacklist(f: Facts)
    ensures BlacklistFollowsInstall(Wizard(f).trace, f.raising)
  {
    var plan := WizardPlan(f);
    WizardPlanPaired(f);
    GuardKeepsPairing(plan.trace, plan.exitCode, f.raising);
  }

  lemma ScriptPlanPaired(argv: seq<string>, f: Facts)
    requires |argv| >= 2
    ensures Paired(ScriptPlan(argv, f).trace) && Say(Crashed) !in ScriptPlan(argv, f).trace
  {
    var prefix := [Do(SetupPathScript), Do(SetupBinaries), Do(MarkerExists)];
    match ParseCommand(argv[1])
    case Help => PairedAround([], [Say(Usage)]);
    case InstallCmd =>
      var notice := if f.markerExists then [Say(AlreadyInstalled)] else [];
      assert ScriptPlan(argv, f).trace == prefix + notice + [Do(Install), Do(ApplyBlacklist)] + [Say(InstallComplete)];
      PairedAround(prefix + notice, [Say(InstallComplete)]);
    case UpdateCmd =>
      if !f.markerExists {
        assert ScriptPlan(argv, f).trace == prefix + [Say(CannotUpdate)];
        PairedAround(prefix, [Say(CannotUpdate)]);
      } else {
        var ask := prefix + [Do(UpdateVersionFile(true)), Do(CheckForUpdates)];
        if f.check == Reinstall {
          assert ScriptPlan(argv, f).trace == ask + [Do(Install), Do(ApplyBlacklist)] + [Say(UpdateComplete)];
          PairedAround(ask, [Say(UpdateComplete)]);
        } else {
          assert ScriptPlan(argv, f).trace == ask + [Do(Update)] + [Say(UpdateComplete)];
          PairedAround(ask + [Do(Update)], [Say(UpdateComplete)]);
        }
      }
    case Unknown(_) => PairedAround([], [Say(Unrecognised)]);
  }

  /** In every run of `manual_script` the blacklist is applied exactly when
      install ran, immediately after it. */
  lemma ScriptPairsBlacklist(argv: seq<string>, f: Facts)
    ensures BlacklistFollowsInstall(ManualScript(argv, f).trace, f.raising)
  {
    if |argv| >= 2 {
      var plan := ScriptPlan(argv, f);
      ScriptPlanPaired(argv, f);
      GuardKeepsPairing(plan.trace, plan.exitCode, f.raising);
    }
  }

  /** The marker file is probed only as the third call, after path setup and
      binary setup in that order. */
  predicate SetupBeforeProbe(trace: seq<Event>, setupPath: Call)
  {
    forall i :: 0 <= i < |trace| && trace[i] == Do(MarkerExists) ==>
      i == 2 && trace[0] == Do(setupPath) && trace[1] == Do(SetupBinaries)
  }

  lemma SetupAround(setupPath: Call, rest: seq<Event>)
    requires setupPath != MarkerExists && Do(MarkerExists) !in rest
    ensures SetupBeforeProbe([Do(setupPath), Do(SetupBinaries), Do(MarkerExists)] + rest, setupPath)
  {
    var p := [Do(setupPath), Do(SetupBinaries), Do(MarkerExists)] + rest;
    forall i | 3 <= i < |p|
      ensures p[i] != Do(MarkerExists)
    {
      assert p[i] == rest[i - 3];
    }
  }

  lemma GuardKeepsSetupOrder(plan: seq<Event>, code: int, raising: set<Call>, setupPath: Call)
    requires SetupBeforeProbe(plan, setupPath)
    ensures SetupBeforeProbe(Guard(plan, code, raising).trace, setupPath)
  {
    var t := Guard(plan, code, raising).trace;
    forall i | 0 <= i < |t| && t[i] == Do(MarkerExists)
      ensures i == 2 && t[0] == Do(setupPath) && t[1] == Do(SetupBinaries)
    {
      assert t[i] == plan[i];
      assert t[0] == plan[0];
      assert t[1] == plan[1];
    }
  }

  /** Path setup and binary setup precede the marker check in the wizard. */
  lemma WizardSetupOrder(f: Facts)
    ensures SetupBeforeProbe(Wizard(f).trace, SetupPath)
  {
    var plan := WizardPlan(f);
    WizardPlanShape(f);
    var rest := plan.trace[3..];
    assert plan.trace == [Do(SetupPath), Do(SetupBinaries), Do(MarkerExists)] + rest;
    assert Do(MarkerExists) !in rest;
    SetupAround(SetupPath, rest);
    GuardKeepsSetupOrder(plan.trace, plan.exitCode, f.raising, SetupPath);
  }

  /** Path setup and binary setup precede the marker check in `--install` and `--update`. */
  lemma ScriptSetupOrder(argv: seq<string>, f: Facts)
    ensures SetupBeforeProbe(ManualScript(argv, f).trace, SetupPathScript)
  {
    if |argv| >= 2 {
      var plan := ScriptPlan(argv, f);
      match ParseCommand(argv[1]) {
      case Help =>
      case Unknown(_) =>
      case InstallCmd =>
        var rest := plan.trace[3..];
        assert plan.trace == [Do(SetupPathScript), Do(SetupBinaries), Do(MarkerExists)] + rest;
        assert Do(MarkerExists) !in rest;
        SetupAround(SetupPathScript, rest);
      case UpdateCmd =>
        var rest := plan.trace[3..];
        assert plan.trace == [Do(SetupPathScript), Do(SetupBinaries), Do(MarkerExists)] + rest;
        assert Do(MarkerExists) !in rest;
        SetupAround(SetupPathScript, rest);
      }
      GuardKeepsSetupOrder(plan.trace, plan.exitCode, f.raising, SetupPathScript);
    }
  }

  /** After a finished install or update, the wizard's "Press Enter" read is
      inside the `try`: when the console input has ended (and the console is not
      Windows Terminal) it raises `EOFError` and the run exits 1; in Windows
      Terminal there is no read and the run exits 0. */
  lemma WizardEnterAtEndOfInput(f: Facts)
    requires f.raising == {WaitForEnter}
    ensures !f.wtSession ==> Wizard(f).exitCode == 1
    ensures f.wtSession ==> Wizard(f).exitCode == 0
  {
    WizardPlanShape(f);
    var plan := WizardPlan(f).trace;
    var end := Gui.MessageEnd(if WizardInstalls(f) then InstallComplete else UpdateComplete, 0, f.wtSession, false);
    var body := if WizardInstalls(f)
                then WizardPrefix(f) + (if !WizardInstalled(f) then [Say(StartingDownload)] else [])
                     + [Do(Install), Do(ApplyBlacklist)]
                else WizardPrefix(f) + [Do(Update)];
    assert plan == body + EndEvents(end);
    assert NoneRaise(body, f.raising);
    if !f.wtSession {
      assert plan[|plan| - 1] == Do(WaitForEnter);
      assert Raises(plan[|plan| - 1], f.raising);
    } else {
      assert EndEvents(end) == [Say(end.shown)];
      assert NoneRaise(plan, f.raising);
    }
  }
}
