# TF2CDownloader installer decisions, modelled in Dafny

TF2CDownloader installs and updates the TF2 Classic game modification. Around a lot
of console and operating-system plumbing sit two pieces of real decision logic,
and this project models both as pure functions and proves what they promise.

- **The two drivers of `tf2c_downloader.py`.** `wizard` is the interactive driver
  and `manual_script` handles `--help`, `--install`, `--update` and anything else.
  Both decide from a few facts: whether `<path>/tf2classic/gameinfo.txt` exists,
  what `versions.update_version_file` returns, and whether
  `versions.check_for_updates()` answers `'reinstall'`; the wizard's closing
  "Press Enter" read also depends on whether the console is Windows Terminal. A run is modelled as the
  ordered trace of collaborator calls and notices it makes, plus its exit status
  (`Downloader.Wizard`, `Downloader.ManualScript`). The collaborators
  (`setup`, `versions`, `downloads`, `troubleshoot`) are opaque. Their results are
  inputs (`Downloader.Facts`), and any of them may raise an `Exception`. Both
  drivers catch it, show the traceback and exit 1. That is modelled by cutting the
  no-exception trace at the first raising call (`Downloader.Guard`).
- **The yes/no question of `gui.py` (`message_yes_no`).** It picks the prompt
  hint from the default and builds the answer table: English words, then the
  localised words and their first letters, with the localised "no" written last.
  In script mode it returns the override or the default. Otherwise it reads lines
  until one is decisive (`Gui.MessageYesNo`, `Gui.Resolve`). The localised words
  are parameters. Input is a finite sequence of lines, and running out of lines
  is the `EOFError` that `input()` raises.

The code behaves differently from a tidy install / update / no-op picture, and the
model follows the code:

- the wizard has no no-op branch; when it does not install, it always updates
  (`DownloaderLemmas.WizardDecision`);
- the wizard calls `check_for_updates` even when nothing is installed
  (`DownloaderLemmas.WizardAlwaysChecks`);
- `--update` stores the result of `update_version_file(True)` but never reads it
  (`DownloaderLemmas.UpdateIgnoresVersionFile`). So the two drivers can act
  differently on the same facts (`DownloaderLemmas.ModesDiverge`).

Localised words are stored in the answer table as written, but typed answers are
lowercased. A localised word containing an ASCII capital letter can therefore never be
matched (`GuiLemmas.CapitalisedKeyUnreachable`).

## Model

| member | source | states |
|---|---|---|
| Gui.Lower | gui.py:54 | the looked-up answer has the same length as the typed one, each ASCII letter lowercased, and no ASCII capital left |
| Gui.PromptSuffix | gui.py:45-50 | the hint is ` {y/n}` with the default's letter in capitals: `Y` for a True default, `N` for a False one, neither for None |
| Gui.AnswerTable | gui.py:36-43 | building the table fails (the `IndexError` of taking a first letter) exactly when a localised word is empty; otherwise every accepted key is non-empty |
| Gui.Resolve | gui.py:52-60 | the loop succeeds iff some line is decisive; the answer is the decision of the first decisive line, and the lines read stop there; otherwise the input ends (`EndOfInput`) |
| Gui.MessageYesNo | gui.py:23-60 | script mode returns the override when given, else the default (possibly None), and reads nothing; interactive mode fails on an empty localised word, otherwise shows the message with the hint and answers iff some line is decisive, giving the decision of the first decisive line after reading exactly up to it, and fails only at the end of input |
| Gui.MessageEnd | gui.py:88-97 | the message is shown, the "Press Enter" read happens exactly when the console is not Windows Terminal and the program is not in script mode, and the exit status is exactly the code given |
| GuiLemmas.TableMatchesMeaning | gui.py:36-43 | a key is accepted iff the priority reading (localised no, localised yes, English) gives it a meaning, and it then maps to that meaning |
| GuiLemmas.LocalNoWins | gui.py:40-43 | the localised "no" word and its first letter mean False even when they collide with a "yes" entry |
| GuiLemmas.EmptyLineNotInTable | gui.py:36-43 | the empty answer is never a table key |
| GuiLemmas.RejectedLinesAreSkipped | gui.py:52-60 | after any run of rejected answers the question is asked again: the outcome fails exactly when that of the remaining lines does, and otherwise gives the same answer with the lines read raised by the number rejected |
| GuiLemmas.EmptyLineTakesDefault | gui.py:55-56 | with a default, an empty answer returns the default after one line |
| GuiLemmas.EmptyLineRejectedWithoutDefault | gui.py:55-60 | with no default, an empty answer is not decisive (no table key is empty) and the question is asked again |
| GuiLemmas.CaseInsensitive | gui.py:54 | input lines that agree once lowercased give the same outcome |
| GuiLemmas.CapitalisedKeyUnreachable | gui.py:38-54 | a table key holding an ASCII capital letter (`A`-`Z`) is never produced by lowercasing any answer |
| GuiLemmas.EnglishAnswers | gui.py:36-43 | "yes"/"y" mean True and "no"/"n" mean False unless a localised word or letter takes the key |
| Downloader.ParseCommand | tf2c_downloader.py:97-156 | an argument is an unknown command exactly when it is none of `--help`, `--install`, `--update` |
| Downloader.FirstRaise | tf2c_downloader.py:84-93 | the position found is the first call that raises, or the end of the plan when none does |
| Downloader.Guard | tf2c_downloader.py:84-93 | without an exception the run is the whole plan with its status; with one, the run is the plan up to and including the first raising call, then the failure notice and status 1 |
| Downloader.WizardInstalled | tf2c_downloader.py:70-73 | the wizard's installed flag is True only if the marker exists, and then equals what `update_version_file` returned |
| Downloader.Wizard | tf2c_downloader.py:64-93 | the wizard exits 0 exactly when no call it makes raises, including the "Press Enter" read of `message_end`, else 1, and always starts with the path prompt |
| Downloader.ManualScript | tf2c_downloader.py:95-163 | the status is 0 or 1; 0 needs a known command; a missing command is caught as an exception and exits 1 |
| DownloaderLemmas.CommandRoundTrip | tf2c_downloader.py:97-156 | every command reads back from its spelling |
| DownloaderLemmas.HelpRunsNothing | tf2c_downloader.py:97-120 | `--help` shows the usage, calls no collaborator and exits 0 |
| DownloaderLemmas.UnknownCommandRunsNothing | tf2c_downloader.py:154-156 | an unrecognised command is reported, calls no collaborator and exits 1 |
| DownloaderLemmas.InstallCommand | tf2c_downloader.py:122-134 | `--install` runs path setup, binary setup, the marker check, install and blacklist, then exits 0, with or without the marker; the marker only adds the reinstallation notice |
| DownloaderLemmas.UpdateWithoutMarker | tf2c_downloader.py:135-144 | `--update` without the marker exits 1 and never installs, updates, applies the blacklist or touches the version file |
| DownloaderLemmas.UpdateWithMarker | tf2c_downloader.py:145-153 | `--update` with the marker installs and applies the blacklist on `'reinstall'`, only updates otherwise, and exits 0 |
| DownloaderLemmas.UpdateIgnoresVersionFile | tf2c_downloader.py:146 | the `manual_script` run does not depend on what `update_version_file(True)` returns |
| DownloaderLemmas.WizardDecision | tf2c_downloader.py:72-83 | a wizard run that ends normally installs and applies the blacklist iff the answer is `'reinstall'` or the flag is False, updates otherwise, and never finishes without a download action |
| DownloaderLemmas.WizardAlwaysChecks | tf2c_downloader.py:74-75 | a wizard run that ends normally fetched the version list and called `check_for_updates`, even with no marker |
| DownloaderLemmas.WizardVersionFile | tf2c_downloader.py:70-73 | the wizard calls `update_version_file` only if the marker exists, and does call it then unless an earlier call raised |
| DownloaderLemmas.WizardEnterAtEndOfInput | tf2c_downloader.py:78-93 | when only the "Press Enter" read of `message_end` raises (end of console input), a finished wizard run exits 1 outside Windows Terminal and 0 inside it, where there is no read |
| DownloaderLemmas.ModesDiverge | tf2c_downloader.py:70-151 | with the marker present, `update_version_file` False and no `'reinstall'`, the wizard installs while `--update` updates |
| DownloaderLemmas.WizardPlanPaired | tf2c_downloader.py:75-83 | without exceptions the wizard's install is immediately followed by the blacklist, and the blacklist only follows install |
| DownloaderLemmas.ScriptPlanPaired | tf2c_downloader.py:122-153 | without exceptions every `manual_script` install is immediately followed by the blacklist, and the blacklist only follows install |
| DownloaderLemmas.GuardKeepsPairing | tf2c_downloader.py:158-163 | cutting a plan at an exception keeps the blacklist immediately after install, unless install itself raised |
| DownloaderLemmas.WizardPairsBlacklist | tf2c_downloader.py:78-79 | in every wizard run the blacklist runs exactly when install ran, immediately after it |
| DownloaderLemmas.ScriptPairsBlacklist | tf2c_downloader.py:131-149 | in every `manual_script` run the blacklist runs exactly when install ran, immediately after it |
| DownloaderLemmas.GuardKeepsSetupOrder | tf2c_downloader.py:84-93 | cutting a plan at an exception keeps path and binary setup before the marker check |
| DownloaderLemmas.WizardSetupOrder | tf2c_downloader.py:67-70 | in the wizard the marker check is the third call, after path setup and binary setup |
| DownloaderLemmas.ScriptSetupOrder | tf2c_downloader.py:123-139 | in `--install` and `--update` the marker check is the third call, after path setup and binary setup |

## Left out

- The Windows Terminal relaunch and the QuickEdit console-mode change (tf2c_downloader.py:27-35): process and foreign-call plumbing.
- `sanity_check`, the re-encoding of stdout/stderr, the locale and the gettext binding (tf2c_downloader.py:37-62): environment I/O. The wizard is modelled as running attached to a terminal.
- The choice between `wizard` and `manual_script` on `vars.SCRIPT_MODE` (tf2c_downloader.py:165-168): a single `if` on a flag that `vars` computes; `vars` is not part of this model. Its `INSTALLED` flag is taken to start False.
- The bodies of `setup`, `downloads`, `versions` and `troubleshoot`: those files are not part of this model. Their results are inputs, and no version-comparison rule is assumed. A collaborator that calls `exit` itself is not modelled.
- Traceback printing and the failure banner (tf2c_downloader.py:84-93, 158-163): console output only; a failure notice and status 1 are kept.
- The "Press Enter" read inside the wizard's exception handler (tf2c_downloader.py:89-92): whether it returns or raises an `Exception` (which Python, left uncaught, also ends with status 1), the process exits 1, which the model keeps. The read inside `message_end` (gui.py:93-96) is modelled as a call that may raise.
- Re-running the installer against the same directory: the version file lives in `versions`, so nothing can be said about a second run.
- `message_input` and `message_dir` (gui.py:63-86): they rely on `expanduser`, `expandvars` and real directory creation.
- `message` (gui.py:14-21): printing and a delay only.
- The translation of the prompt hints and notices: the hints are the English ` {y/n}`, ` {Y/n}` and ` {y/N}`.
- Downloader.Wizard: only exceptions that are `Exception` subclasses are modelled; a Ctrl-C `KeyboardInterrupt` (a `BaseException`) escapes the `except Exception` handler at tf2c_downloader.py:84, skips the failure notice and ends the process with a status other than 0 or 1.
- Downloader.ManualScript: likewise, a `KeyboardInterrupt` escapes the handler at tf2c_downloader.py:158 with a status other than 0 or 1; only `Exception` subclasses are modelled.
- Gui.MessageEnd: the exit status is the code as given; the reduction of a process status modulo 256 is not modelled, and the wizard passes only 0.
- GuiLemmas.CapitalisedKeyUnreachable: covers ASCII capitals only; since Gui.Lower leaves other letters unchanged, a localised word with a non-ASCII capital is matched in the model when typed exactly, while Python would lowercase the answer and miss it.
- Gui.Lower: lowercases ASCII letters only, while Python's `str.lower` also maps other Unicode letters.
