/** JetEdition (com.excelsiorjet.JetEdition): the editions of Excelsior JET
    and their detection from the banner the JET compiler prints. */
module JetEdition {
  import opened Wrappers
  import opened JavaLang
  import CmdLineTool

  /** The editions, in declaration order. */
  datatype Edition =
    | Evaluation
    | Standard
    | Professional
    | Enterprise
    | Embedded
    | EmbeddedEvaluation

  /** JetEdition.values(). */
  const Values: seq<Edition> :=
    [Evaluation, Standard, Professional, Enterprise, Embedded, EmbeddedEvaluation]

  /** The message key of the exception raised when no edition is found. */
  const UnableToDetectEditionKey: string := "JetHome.UnableToDetectEdition.Error"

  /** JetHomeException, by its message. */
  datatype JetHomeException = JetHomeException(message: string)

  /** fullEditionName(). */
  function FullEditionName(e: Edition): string {
    match e
    case Evaluation => "Evaluation"
    case Standard => "Standard Edition"
    case Professional => "Professional Edition"
    case Enterprise => "Enterprise Edition"
    case Embedded => "Embedded Edition"
    case EmbeddedEvaluation => "Embedded Evaluation"
  }

  /** Every edition occurs exactly once in values(). */
  lemma ValuesEnumerate(e: Edition)
    ensures e in Values
    ensures forall i, j :: 0 <= i < j < |Values| ==> Values[i] != Values[j]
  {
  }

  /** Two editions never share a full name. */
  lemma FullEditionNameInjective(a: Edition, b: Edition)
    requires FullEditionName(a) == FullEditionName(b)
    ensures a == b
  {
  }

  /** The stream's findFirst over values() from index `i`: the index of
      the first edition whose full name the line contains, or -1. */
  function MatchIndex(line: string, i: nat): (r: int)
    requires i <= |Values|
    ensures r == -1 || i <= r < |Values|
    ensures r >= 0 ==> Contains(line, FullEditionName(Values[r]))
    ensures forall k :: i <= k < |Values| && (r == -1 || k < r) ==>
      !Contains(line, FullEditionName(Values[k]))
    decreases |Values| - i
  {
    if i == |Values| then -1
    else if Contains(line, FullEditionName(Values[i])) then i
    else MatchIndex(line, i + 1)
  }

  /** The edition a single info line names, if any. */
  function MatchLine(line: string): Option<Edition> {
    var k := MatchIndex(line, 0);
    if k < 0 then None else Some(Values[k])
  }

  /** The edition recorded from the compiler's output: the first standard
      output line that names one decides; standard error is ignored. */
  function FirstEdition(output: seq<CmdLineTool.Line>): Option<Edition> {
    if |output| == 0 then None
    else if output[0].Out? && MatchLine(output[0].text).Some? then MatchLine(output[0].text)
    else FirstEdition(output[1..])
  }

  /** What detectEdition returns for a run of the JET compiler. */
  function Detected(run: CmdLineTool.ProcessRun): Result<Edition, JetHomeException> {
    match run
    case Failed(message) => Failure(JetHomeException(message))
    case Exited(exitCode, output) =>
      if exitCode != 0 || FirstEdition(output).None? then Failure(JetHomeException(UnableToDetectEditionKey))
      else Success(FirstEdition(output).value)
  }

  /** detectEdition: the log callback fills the one-element holder with
      the edition of the first info line that names one and ignores every
      later line and every error line; a nonzero exit code or an empty
      holder is an error, and so is a failed run. */
  method DetectEdition(run: CmdLineTool.ProcessRun) returns (r: Result<Edition, JetHomeException>)
    ensures r == Detected(run)
    ensures run.Failed? ==> r == Failure(JetHomeException(run.message))
    ensures run.Exited? ==> (r.Success? <==> run.exitCode == 0 && FirstEdition(run.output).Some?)
    ensures run.Exited? && r.Failure? ==> r.error.message == UnableToDetectEditionKey
  {
    if run.Failed? {
      return Failure(JetHomeException(run.message));
    }
    var output := run.output;
    var edition: Option<Edition> := None;
    var i := 0;
    while i < |output|
      invariant 0 <= i <= |output|
      invariant edition == FirstEdition(output[..i])
    {
      FirstEditionAppend(output[..i], output[i]);
      if output[i].Out? && edition.None? {
        edition := MatchLine(output[i].text);
      }
      assert output[..i + 1] == output[..i] + [output[i]];
      i := i + 1;
    }
    assert output[..i] == output;
    if run.exitCode != 0 || edition.None? {
      return Failure(JetHomeException(UnableToDetectEditionKey));
    }
    return Success(edition.value);
  }

  // ---------------------------------------------------------------------
  // Properties

  /** No edition is detected exactly when no standard output line names
      one, and a detected edition is named by some standard output line. */
  lemma {:induction false} FirstEditionNone(output: seq<CmdLineTool.Line>)
    ensures FirstEdition(output).None? <==>
      forall i :: 0 <= i < |output| && output[i].Out? ==> MatchLine(output[i].text).None?
    ensures FirstEdition(output).Some? ==>
      exists i :: 0 <= i < |output| && output[i].Out? && MatchLine(output[i].text) == FirstEdition(output)
  {
    if |output| > 0 && !(output[0].Out? && MatchLine(output[0].text).Some?) {
      FirstEditionNone(output[1..]);
      assert forall i :: 1 <= i < |output| ==> output[i] == output[1..][i - 1];
      if FirstEdition(output).Some? {
        var i :| 0 <= i < |output[1..]| && output[1..][i].Out? && MatchLine(output[1..][i].text) == FirstEdition(output);
        assert output[i + 1] == output[1..][i];
      }
    }
  }

  /** One more line decides only if no earlier line did. */
  lemma {:induction false} FirstEditionAppend(output: seq<CmdLineTool.Line>, line: CmdLineTool.Line)
    ensures FirstEdition(output + [line]) ==
      if FirstEdition(output).Some? then FirstEdition(output)
      else if line.Out? then MatchLine(line.text)
      else None
  {
    if |output| > 0 {
      assert (output + [line])[1..] == output[1..] + [line];
      FirstEditionAppend(output[1..], line);
    }
  }

  /** Once a line has named an edition, nothing printed afterwards changes
      it. */
  lemma {:induction false} EarliestLineWins(output: seq<CmdLineTool.Line>, later: seq<CmdLineTool.Line>)
    requires FirstEdition(output).Some?
    ensures FirstEdition(output + later) == FirstEdition(output)
  {
    if output[0].Out? && MatchLine(output[0].text).Some? {
      assert (output + later)[0] == output[0];
    } else {
      assert (output + later)[1..] == output[1..] + later;
      EarliestLineWins(output[1..], later);
    }
  }

  /** Lines on standard error never affect the detected edition. */
  lemma {:induction false} ErrorLinesIgnored(before: seq<CmdLineTool.Line>, text: string, after: seq<CmdLineTool.Line>)
    ensures FirstEdition(before + [CmdLineTool.Err(text)] + after) == FirstEdition(before + after)
  {
    if |before| == 0 {
      assert before + [CmdLineTool.Err(text)] + after == [CmdLineTool.Err(text)] + after;
      assert ([CmdLineTool.Err(text)] + after)[0] == CmdLineTool.Err(text);
      assert ([CmdLineTool.Err(text)] + after)[1..] == after;
      assert before + after == after;
    } else {
      assert (before + [CmdLineTool.Err(text)] + after)[0] == before[0];
      assert (before + [CmdLineTool.Err(text)] + after)[1..] == before[1..] + [CmdLineTool.Err(text)] + after;
      assert (before + after)[0] == before[0];
      assert (before + after)[1..] == before[1..] + after;
      ErrorLinesIgnored(before[1..], text, after);
    }
  }

  lemma EvaluationInEmbeddedEvaluation()
    ensures Contains("Embedded Evaluation", "Evaluation")
  {
    var s := "Embedded Evaluation";
    assert s[9..][..10] == "Evaluation";
    ContainsAt(s, "Evaluation", 9);
  }

  /** "Embedded Evaluation" also contains "Evaluation", which comes first
      in values(): the Embedded Evaluation edition is never detected, an
      Embedded Evaluation banner is reported as Evaluation. */
  lemma EmbeddedEvaluationNeverDetected(line: string)
    ensures MatchLine(line) != Some(EmbeddedEvaluation)
    ensures Contains(line, "Embedded Evaluation") ==> MatchLine(line) == Some(Evaluation)
  {
    if Contains(line, "Embedded Evaluation") {
      EvaluationInEmbeddedEvaluation();
      ContainsTransitive(line, "Embedded Evaluation", "Evaluation");
    }
  }

  /** A compiler that exits with a nonzero code is an error even after it
      printed its edition. */
  lemma NonzeroExitFails(exitCode: int, output: seq<CmdLineTool.Line>)
    requires exitCode != 0
    ensures Detected(CmdLineTool.Exited(exitCode, output)) == Failure(JetHomeException(UnableToDetectEditionKey))
  {
  }
}
