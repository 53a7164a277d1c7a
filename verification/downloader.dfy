/**
 Model of the two drivers in tf2c_downloader.py that pick what the installer does:
 the interactive `wizard` and the command-line `manual_script`.

 The collaborators (`setup`, `versions`, `downloads`, `troubleshoot`) are opaque:
 a run records which of them it calls, in order, together with the notices it
 shows, and takes their results as inputs (`Facts`). Any collaborator may raise
 an `Exception`; both drivers catch it, print the traceback and exit with status 1.
 A `KeyboardInterrupt` is not an `Exception` and is not modelled.

 Each driver is written as a plan, the trace of a run in which nothing raises,
 which `Guard` cuts at the first call that raises. Every decision in a plan rests
 only on results of calls made before it, so the cut plan is exactly the trace
 of the run that stops at that call.
 */
module Downloader {
  import Gui

  /** The collaborator calls a run can make. */
  datatype Call =
    | SetupPath                          // setup.setup_path(False), the wizard's path prompt
    | SetupPathScript                    // setup.setup_path_script(), the path from the command line
    | SetupBinaries                      // setup.setup_binaries()
    | MarkerExists                       // os.path.exists(<path>/tf2classic/gameinfo.txt)
    | UpdateVersionFile(withTrue: bool)  // versions.update_version_file() / update_version_file(True)
    | GetVersionList                     // versions.get_version_list()
    | CheckForUpdates                    // versions.check_for_updates()
    | Install                            // downloads.install()
    | ApplyBlacklist                     // troubleshoot.apply_blacklist()
    | Update                             // downloads.update()
    | WaitForEnter                       // the input() of gui.message_end's "Press Enter" wait

  /** The notices a run shows. */
  datatype Notice =
    | Usage               // the usage text of --help
    | AlreadyInstalled    // --install found the game and treats the run as a reinstallation
    | StartingDownload    // the wizard announces a fresh download
    | InstallComplete     // installation finished
    | UpdateComplete      // update finished
    | CannotUpdate        // --update found nothing to update
    | Unrecognised        // the command is not known
    | Crashed             // the traceback and failure banner of the exception handler

  datatype Event = Do(call: Call) | Say(notice: Notice)

  /** What `versions.check_for_updates()` answered: `'reinstall'` or anything else. */
  datatype CheckResult = Reinstall | NoReinstall

  /** Everything a run learns from outside: whether the marker file exists, what
      `update_version_file` returns, what `check_for_updates` answers, whether the
      console is Windows Terminal (`WT_SESSION` set), and which calls raise an
      exception. A `WaitForEnter` that raises is the `EOFError` of reading past
      the end of the console input. */
  datatype Facts = Facts(markerExists: bool, versionFileOk: bool, check: CheckResult,
                         wtSession: bool, raising: set<Call>)

  /** A finished run: what happened, in order, and the process exit status. */
  datatype Run = Run(trace: seq<Event>, exitCode: int)

  /** The first argument after the program name, as `manual_script` reads it. */
  datatype Command = Help | InstallCmd | UpdateCmd | Unknown(arg: string)

  function ParseCommand(arg: string): (c: Command)
    ensures c.Unknown? <==> arg != "--help" && arg != "--install" && arg != "--update"
    ensures c.Unknown? ==> c.arg == arg
  {
    if arg == "--help" then Help
    else if arg == "--install" then InstallCmd
    else if arg == "--update" then UpdateCmd
    else Unknown(arg)
  }

  /** The spelling of a known command on the command line. */
  function Spelling(c: Command): string
  {
    match c
    case Help => "--help"
    case InstallCmd => "--install"
    case UpdateCmd => "--update"
    case Unknown(arg) => arg
  }

  predicate Raises(e: Event, raising: set<Call>)
  {
    e.Do? && e.call in raising
  }

  predicate NoneRaise(plan: seq<Event>, raising: set<Call>)
  {
    forall i :: 0 <= i < |plan| ==> !Raises(plan[i], raising)
  }

  /** The position of the first call of `plan` that raises, or `|plan|` when none does. */
  function FirstRaise(plan: seq<Event>, raising: set<Call>): (k: nat)
    ensures k <= |plan|
    ensures forall j :: 0 <= j < k ==> !Raises(plan[j], raising)
    ensures k < |plan| ==> Raises(plan[k], raising)
  {
    if |plan| == 0 then 0
    else if Raises(plan[0], raising) then 0
    else 1 + FirstRaise(plan[1..], raising)
  }

  /** The run of a plan under the `except Exception` handler: the plan up to and
      including the first call that raises, then the failure notice and status 1;
      the whole plan with its own status when nothing raises. */
  function Guard(plan: seq<Event>, code: int, raising: set<Call>): (r: Run)
    ensures NoneRaise(plan, raising) ==> r == Run(plan, code)
    ensures !NoneRaise(plan, raising) ==>
              && r.exitCode == 1
              && 2 <= |r.trace| <= |plan| + 1
              && r.trace[|r.trace| - 1] == Say(Crashed)
              && r.trace[..|r.trace| - 1] == plan[..|r.trace| - 1]
              && Raises(r.trace[|r.trace| - 2], raising)
              && NoneRaise(r.trace[..|r.trace| - 2], raising)
    ensures forall i :: 0 <= i < |r.trace| && r.trace[i] != Say(Crashed) ==> i < |plan| && r.trace[i] == plan[i]
  {
    var k := FirstRaise(plan, raising);
    if k == |plan| then Run(plan, code)
    else
      var r := Run(plan[..k + 1] + [Say(Crashed)], 1);
      assert r.trace[..|r.trace| - 1] == plan[..k + 1];
      assert r.trace[..|r.trace| - 2] == plan[..k];
      r
  }

  /** `vars.INSTALLED` after line 73 of the wizard: set when the marker file exists,
      then replaced by what `update_version_file` returns. It starts out False. */
  function WizardInstalled(f: Facts): (installed: bool)
    ensures installed ==> f.markerExists
    ensures f.markerExists ==> installed == f.versionFileOk
  {
    var installed := false;
    var installed := if f.markerExists then true else installed;
    if installed then f.versionFileOk else installed
  }

  /** Whether the wizard takes the install branch (line 75). */
  predicate WizardInstalls(f: Facts)
  {
    f.check == Reinstall || !WizardInstalled(f)
  }

  /** The wizard's calls up to and including `check_for_updates` (lines 67-75). */
  function WizardPrefix(f: Facts): seq<Event>
  {
    [Do(SetupPath), Do(SetupBinaries), Do(MarkerExists)]
    + (if f.markerExists then [Do(UpdateVersionFile(false))] else [])
    + [Do(GetVersionList), Do(CheckForUpdates)]
  }

  /** What `message_end` adds to a trace: its message, then the "Press Enter" read
      when it waits. */
  function EndEvents(end: Gui.Ending<Notice>): seq<Event>
  {
    [Say(end.shown)] + (if end.waitsForEnter then [Do(WaitForEnter)] else [])
  }

  /** The wizard's run when nothing raises, with the status `message_end` exits with.
      The wizard runs only outside script mode (lines 165-168). */
  function WizardPlan(f: Facts): Run
  {
    if WizardInstalls(f) then
      var end := Gui.MessageEnd(InstallComplete, 0, f.wtSession, false);
      Run(WizardPrefix(f) + (if !WizardInstalled(f) then [Say(StartingDownload)] else [])
                          + [Do(Install), Do(ApplyBlacklist)] + EndEvents(end), end.exitCode)
    else
      var end := Gui.MessageEnd(UpdateComplete, 0, f.wtSession, false);
      Run(WizardPrefix(f) + [Do(Update)] + EndEvents(end), end.exitCode)
  }

  /** `wizard()`: exits 0 exactly when no collaborator raised, and 1 otherwise. */
  function Wizard(f: Facts): (r: Run)
    ensures r.exitCode == 0 <==> NoneRaise(WizardPlan(f).trace, f.raising)
    ensures r.exitCode == 0 || r.exitCode == 1
    ensures |r.trace| >= 2 && r.trace[0] == Do(SetupPath)
  {
    var plan := WizardPlan(f);
    Guard(plan.trace, plan.exitCode, f.raising)
  }

  /** The command-line run when nothing raises. */
  function ScriptPlan(argv: seq<string>, f: Facts): Run
    requires |argv| >= 2
  {
    match ParseCommand(argv[1])
    case Help => Run([Say(Usage)], 0)
    case InstallCmd =>
      Run([Do(SetupPathScript), Do(SetupBinaries), Do(MarkerExists)]
          + (if f.markerExists then [Say(AlreadyInstalled)] else [])
          + [Do(Install), Do(ApplyBlacklist), Say(InstallComplete)], 0)
    case UpdateCmd =>
      var prefix := [Do(SetupPathScript), Do(SetupBinaries), Do(MarkerExists)];
      if !f.markerExists then Run(prefix + [Say(CannotUpdate)], 1)
      else
        // The result of update_version_file(True) is stored in vars.INSTALLED and never read again.
        var action := if f.check == Reinstall then [Do(Install), Do(ApplyBlacklist)] else [Do(Update)];
        Run(prefix + [Do(UpdateVersionFile(true)), Do(CheckForUpdates)] + action + [Say(UpdateComplete)], 0)
    case Unknown(_) => Run([Say(Unrecognised)], 1)
  }

  /** `manual_script()` over the process arguments `argv` (program name first).
      A missing command is the `IndexError` of `sys.argv[1]`, caught like any
      other exception. Status 0 needs a known command and no exception. */
  function ManualScript(argv: seq<string>, f: Facts): (r: Run)
    ensures r.exitCode == 0 || r.exitCode == 1
    ensures r.exitCode == 0 ==> |argv| >= 2 && !ParseCommand(argv[1]).Unknown?
    ensures |argv| < 2 ==> r == Run([Say(Crashed)], 1)
  {
    if |argv| < 2 then Run([Say(Crashed)], 1)
    else
      var plan := ScriptPlan(argv, f);
      Guard(plan.trace, plan.exitCode, f.raising)
  }
}
