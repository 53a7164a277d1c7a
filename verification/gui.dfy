/**
 Model of the console helpers in gui.py that the installer's decisions rest on:
 the yes/no question (`message_yes_no`) and the exit helper (`message_end`).
 Printing and delays are output only and are not modelled;
 input is a finite sequence of lines, and reading past its end is the `EOFError`
 that Python's `input()` raises.
 */
module Gui {
  import opened Wrappers

  /** Why a question could not be answered: the input ended, or a localised
      word was empty so that taking its first letter raised `IndexError`. */
  datatype AskError = EndOfInput | EmptyLocalWord

  /** A settled question: the prompt shown, the answer, and how many lines were read. */
  datatype Reply = Reply(prompt: string, answer: Option<bool>, linesRead: nat)

  /** `str.lower()` restricted to ASCII letters. */
  function LowerChar(c: char): char
  {
    if 'A' <= c <= 'Z' then (c as int + 32) as char else c
  }

  predicate IsUpper(c: char)
  {
    'A' <= c <= 'Z'
  }

  /** The answer line as it is looked up: every character lowercased. */
  function Lower(s: string): (r: string)
    ensures |r| == |s|
    ensures forall i :: 0 <= i < |s| ==> r[i] == LowerChar(s[i])
    ensures forall i :: 0 <= i < |r| ==> !IsUpper(r[i])
  {
    seq(|s|, i requires 0 <= i < |s| => LowerChar(s[i]))
  }

  /** The hint appended to the question: the letter of the default answer, if
      there is one, is written in capitals. */
  function PromptSuffix(default: Option<bool>): (r: string)
    ensures |r| == 6 && r[0] == ' ' && r[1] == '{' && r[3] == '/' && r[5] == '}'
    ensures r[2] == (if default.Some? && default.value then 'Y' else 'y')
    ensures r[4] == (if default.Some? && !default.value then 'N' else 'n')
  {
    if default.Some? && default.value then " {Y/n}"
    else if default.Some? then " {y/N}"
    else " {y/n}"
  }

  /** The answers the question accepts, built in the order gui.py writes them:
      the English words and letters, then the localised "yes" word and its first
      letter, then the localised "no" word and its first letter. A later entry
      overwrites an earlier one with the same key. */
  function AnswerTable(localYes: string, localNo: string): (r: Result<map<string, bool>, AskError>)
    ensures r.Err? <==> |localYes| == 0 || |localNo| == 0
    ensures r.Err? ==> r.error == EmptyLocalWord
    ensures r.Ok? ==> forall key :: key in r.value ==> |key| > 0
  {
    var valid := map["yes" := true, "no" := false, "y" := true, "n" := false];
    var valid := valid[localYes := true];
    if |localYes| == 0 then Err(EmptyLocalWord)
    else
      var valid := valid[[localYes[0]] := true];
      var valid := valid[localNo := false];
      if |localNo| == 0 then Err(EmptyLocalWord)
      else Ok(valid[[localNo[0]] := false])
  }

  /** What a lowercased answer means, stated by priority instead of by table
      updates: the localised "no" entries, then the localised "yes" entries,
      then the English words. */
  function Meaning(key: string, localYes: string, localNo: string): (r: Option<bool>)
    requires |localYes| > 0 && |localNo| > 0
  {
    if key == localNo || key == [localNo[0]] then Some(false)
    else if key == localYes || key == [localYes[0]] then Some(true)
    else if key == "yes" || key == "y" then Some(true)
    else if key == "no" || key == "n" then Some(false)
    else None
  }

  /** An answer line ends the question: it is empty while a default exists, or
      its lowercased form is in the table. */
  predicate Decisive(line: string, default: Option<bool>, table: map<string, bool>)
  {
    (default.Some? && Lower(line) == "") || Lower(line) in table
  }

  /** The answer a decisive line gives; an empty line gives the default first. */
  function Decision(line: string, default: Option<bool>, table: map<string, bool>): bool
    requires Decisive(line, default, table)
  {
    if default.Some? && Lower(line) == "" then default.value else table[Lower(line)]
  }

  /** The prompt loop: read lines until one is decisive. The answer is the
      decision of the first decisive line, and the count of lines read ends
      with it; running out of lines first is `EndOfInput`. */
  function Resolve(lines: seq<string>, default: Option<bool>, table: map<string, bool>)
    : (r: Result<(bool, nat), AskError>)
    ensures r.Ok? <==> exists k :: 0 <= k < |lines| && Decisive(lines[k], default, table)
    ensures r.Err? ==> r.error == EndOfInput
    ensures r.Ok? ==>
              var k := r.value.1 - 1;
              && 0 <= k < |lines|
              && Decisive(lines[k], default, table)
              && (forall j :: 0 <= j < k ==> !Decisive(lines[j], default, table))
              && r.value.0 == Decision(lines[k], default, table)
  {
    if |lines| == 0 then Err(EndOfInput)
    else
      var choice := Lower(lines[0]);
      if default.Some? && choice == "" then Ok((default.value, 1))
      else if choice in table then Ok((table[choice], 1))
      else
        match Resolve(lines[1..], default, table)
        case Err(e) => Err(e)
        case Ok((answer, n)) => Ok((answer, n + 1))
  }

  /** `message_yes_no`: in script mode the override, or else the default, is the
      answer and nothing is read; otherwise the prompt loop runs over `lines`. */
  function MessageYesNo(scriptMode: bool, msg: string, default: Option<bool>, override: Option<bool>,
                        localYes: string, localNo: string, lines: seq<string>)
    : (r: Result<Reply, AskError>)
    ensures scriptMode ==>
              r.Ok? && r.value.prompt == msg && r.value.linesRead == 0
              && r.value.answer == (if override.Some? then override else default)
    ensures !scriptMode && (|localYes| == 0 || |localNo| == 0) ==> r == Err(EmptyLocalWord)
    ensures !scriptMode && |localYes| > 0 && |localNo| > 0 ==>
              (r.Ok? <==> exists k :: 0 <= k < |lines| && Decisive(lines[k], default, AnswerTable(localYes, localNo).value))
    ensures !scriptMode && |localYes| > 0 && |localNo| > 0 && r.Err? ==> r.error == EndOfInput
    ensures !scriptMode && r.Ok? ==>
              && r.value.answer.Some?
              && r.value.prompt == msg + PromptSuffix(default)
              && 1 <= r.value.linesRead <= |lines|
    ensures !scriptMode && r.Ok? ==>
              var table := AnswerTable(localYes, localNo).value;
              var k := r.value.linesRead - 1;
              && Decisive(lines[k], default, table)
              && (forall j :: 0 <= j < k ==> !Decisive(lines[j], default, table))
              && r.value.answer == Some(Decision(lines[k], default, table))
  {
    if scriptMode then
      if override.Some? then Ok(Reply(msg, override, 0)) else Ok(Reply(msg, default, 0))
    else
      match AnswerTable(localYes, localNo)
      case Err(e) => Err(e)
      case Ok(valid) =>
        match Resolve(lines, default, valid)
        case Err(e) => Err(e)
        case Ok((answer, n)) => Ok(Reply(msg + PromptSuffix(default), Some(answer), n))
  }

  /** How `message_end` leaves the program: the message shown, whether it waits
      for Enter before exiting, and the exit status. */
  datatype Ending<M> = Ending(shown: M, waitsForEnter: bool, exitCode: int)

  /** `message_end`: shows the message, waits for Enter unless the console is
      Windows Terminal or the program is in script mode, and exits with the status
      it was given. */
  function MessageEnd<M>(msg: M, code: int, wtSession: bool, scriptMode: bool): (r: Ending<M>)
    ensures r.exitCode == code && r.shown == msg
    ensures r.waitsForEnter <==> !wtSession && !scriptMode
  {
    if wtSession then Ending(msg, false, code)
    else if !scriptMode then Ending(msg, true, code)
    else Ending(msg, false, code)
  }
}
