/** Properties of the yes/no question modelled in module Gui. */
module GuiLemmas {
  import opened Wrappers
  import opened Gui

  /** The table built by successive writes gives every key the meaning stated by
      priority in `Meaning`, in both directions: a key is accepted exactly when
      `Meaning` gives it a value, and then it maps to that value. */
  lemma TableMatchesMeaning(localYes: string, localNo: string, key: string)
    requires |localYes| > 0 && |localNo| > 0
    ensures AnswerTable(localYes, localNo).Ok?
    ensures key in AnswerTable(localYes, localNo).value <==> Meaning(key, localYes, localNo).Some?
    ensures key in AnswerTable(localYes, localNo).value ==>
              AnswerTable(localYes, localNo).value[key] == Meaning(key, localYes, localNo).value
  {
  }

  /** The localised "no" word and its first letter are written last, so they
      mean "no" even when they collide with a "yes" entry. */
  lemma LocalNoWins(localYes: string, localNo: string)
    requires |localYes| > 0 && |localNo| > 0
    ensures AnswerTable(localYes, localNo).Ok?
    ensures localNo in AnswerTable(localYes, localNo).value
    ensures AnswerTable(localYes, localNo).value[localNo] == false
    ensures AnswerTable(localYes, localNo).value[[localNo[0]]] == false
  {
  }

  /** An empty line never matches the table: every key is non-empty. */
  lemma EmptyLineNotInTable(localYes: string, localNo: string)
    requires |localYes| > 0 && |localNo| > 0
    ensures "" !in AnswerTable(localYes, localNo).value
  {
  }

  /** Lines that are not decisive are each answered with the retry notice and the
      question is asked again: after any run of them, the outcome is that of the
      remaining lines, with the count of lines read raised by the lines rejected. */
  lemma {:induction false} RejectedLinesAreSkipped(rejected: seq<string>, rest: seq<string>,
                                                   default: Option<bool>, table: map<string, bool>)
    requires forall j :: 0 <= j < |rejected| ==> !Decisive(rejected[j], default, table)
    ensures Resolve(rejected + rest, default, table).Err? <==> Resolve(rest, default, table).Err?
    ensures Resolve(rest, default, table).Ok? ==>
              Resolve(rejected + rest, default, table)
              == Ok((Resolve(rest, default, table).value.0, Resolve(rest, default, table).value.1 + |rejected|))
  {
    if |rejected| == 0 {
      assert rejected + rest == rest;
    } else {
      var lines := rejected + rest;
      assert lines[0] == rejected[0];
      assert lines[1..] == rejected[1..] + rest;
      RejectedLineIsSkipped(lines, default, table);
      RejectedLinesAreSkipped(rejected[1..], rest, default, table);
    }
  }

  /** Proof helper: one rejected line is skipped. */
  lemma RejectedLineIsSkipped(lines: seq<string>, default: Option<bool>, table: map<string, bool>)
    requires |lines| > 0 && !Decisive(lines[0], default, table)
    ensures Resolve(lines, default, table).Err? <==> Resolve(lines[1..], default, table).Err?
    ensures Resolve(lines[1..], default, table).Ok? ==>
              Resolve(lines, default, table)
              == Ok((Resolve(lines[1..], default, table).value.0, Resolve(lines[1..], default, table).value.1 + 1))
  {
  }

  /** With a default, an empty answer returns the default at once. */
  lemma EmptyLineTakesDefault(msg: string, default: Option<bool>, localYes: string, localNo: string,
                              lines: seq<string>)
    requires default.Some? && |localYes| > 0 && |localNo| > 0
    requires |lines| > 0 && lines[0] == ""
    ensures MessageYesNo(false, msg, default, None, localYes, localNo, lines)
            == Ok(Reply(msg + PromptSuffix(default), default, 1))
  {
  }

  /** Without a default, an empty answer is rejected and the question is asked again. */
  lemma EmptyLineRejectedWithoutDefault(localYes: string, localNo: string, lines: seq<string>)
    requires |localYes| > 0 && |localNo| > 0
    requires |lines| > 0 && lines[0] == ""
    ensures !Decisive("", None, AnswerTable(localYes, localNo).value)
    ensures var table := AnswerTable(localYes, localNo).value;
            Resolve(lines, None, table) ==
              match Resolve(lines[1..], None, table)
              case Err(e) => Err(e)
              case Ok((answer, n)) => Ok((answer, n + 1))
  {
  }

  /** Lookup ignores letter case: lines that agree once lowercased give the same outcome. */
  lemma CaseInsensitive(a: seq<string>, b: seq<string>, default: Option<bool>, table: map<string, bool>)
    requires |a| == |b|
    requires forall i :: 0 <= i < |a| ==> Lower(a[i]) == Lower(b[i])
    ensures Resolve(a, default, table) == Resolve(b, default, table)
  {
  }

  /** A table key that contains an ASCII capital letter can never be typed: answers are
      lowercased before lookup while the localised words are stored as written. */
  lemma CapitalisedKeyUnreachable(key: string, i: nat)
    requires i < |key| && IsUpper(key[i])
    ensures forall line :: Lower(line) != key
  {
  }

  /** English answers keep their meaning unless a localised word takes the key. */
  lemma EnglishAnswers(localYes: string, localNo: string, key: string)
    requires |localYes| > 0 && |localNo| > 0
    requires key != localYes && key != [localYes[0]] && key != localNo && key != [localNo[0]]
    ensures key == "yes" || key == "y" ==> AnswerTable(localYes, localNo).value[key] == true
    ensures key == "no" || key == "n" ==> AnswerTable(localYes, localNo).value[key] == false
  {
  }
}
