/**
 * The ghosts app's result document: the medal earned, the score summary and
 * one SCORE line per question, as the text `writeXML` builds.
 */
module GhostsResult {
  import opened TextLines

  datatype Medal = Gold | Silver | Bronze | NoMedal

  /** The text written into the summary's `Medal` attribute. */
  function MedalText(m: Medal): string {
    match m
    case Gold => "Gold"
    case Silver => "Silver"
    case Bronze => "Bronze"
    case NoMedal => " - "
  }

  /** 1 for gold, 2 for silver, 3 for bronze: the medal-time entry that must be beaten. */
  function Place(m: Medal): nat {
    match m
    case Gold => 1
    case Silver => 2
    case Bronze => 3
    case NoMedal => 4
  }

  /**
   * `total < times[k]`; a missing entry compares as false, as a comparison
   * with `undefined` does.
   */
  predicate Beats(total: real, times: map<int, real>, k: int) {
    k in times && total < times[k]
  }

  /**
   * The medal for a run with the given end state and total time (elapsed plus
   * penalty, in seconds), against the stage's medal times. Only a finished run
   * earns a medal.
   */
  function MedalFor(state: string, total: real, times: map<int, real>): (m: Medal)
    ensures state != "FINISH" ==> m == NoMedal
  {
    if state == "FINISH" then
      if Beats(total, times, 1) then Gold
      else if Beats(total, times, 2) then Silver
      else if Beats(total, times, 3) then Bronze
      else NoMedal
    else NoMedal
  }

  /**
   * A finished run earns the medal of the first medal time, in the order gold,
   * silver, bronze, that its total beats; and no medal when it beats none.
   */
  lemma MedalIsFirstBeaten(total: real, times: map<int, real>)
    ensures var m := MedalFor("FINISH", total, times);
      && (m == NoMedal <==> forall k | 1 <= k <= 3 :: !Beats(total, times, k))
      && (m != NoMedal ==> Beats(total, times, Place(m)))
      && (forall k | 1 <= k < Place(m) && k <= 3 :: !Beats(total, times, k))
  {
  }

  /** With increasing medal times, each medal covers one band of total times. */
  lemma MedalBands(total: real, times: map<int, real>)
    requires 1 in times && 2 in times && 3 in times
    requires times[1] <= times[2] <= times[3]
    ensures MedalFor("FINISH", total, times) == Gold <==> total < times[1]
    ensures MedalFor("FINISH", total, times) == Silver <==> times[1] <= total < times[2]
    ensures MedalFor("FINISH", total, times) == Bronze <==> times[2] <= total < times[3]
    ensures MedalFor("FINISH", total, times) == NoMedal <==> times[3] <= total
  {
  }

  /** A faster run never earns a lesser medal, whatever the medal times. */
  lemma MedalMonotone(state: string, faster: real, slower: real, times: map<int, real>)
    requires faster <= slower
    ensures Place(MedalFor(state, faster, times)) <= Place(MedalFor(state, slower, times))
  {
  }

  /** `Math.round(seconds * 1000)`: the nearest whole millisecond, halves rounded up. */
  function RoundMs(seconds: real): (r: int)
    ensures (r as real) - 0.5 <= seconds * 1000.0 < (r as real) + 0.5
  {
    (seconds * 1000.0 + 0.5).Floor
  }

  /**
   * The reported total score, the sum of the separately rounded elapsed and
   * penalty milliseconds, is within a millisecond of the exact total time.
   */
  lemma TotalScoreNearTotalTime(elapsed: real, penalty: real)
    ensures var total := RoundMs(elapsed) + RoundMs(penalty);
      -1.0 < (total as real) - (elapsed + penalty) * 1000.0 <= 1.0
  {
  }

  /** The total score need not be the rounded total time: both halves round up here. */
  lemma TotalScoreRoundingGap()
    ensures RoundMs(0.0005) + RoundMs(0.0005) == 2
    ensures RoundMs(0.0005 + 0.0005) == 1
  {
  }

  /** What a question of the run records. */
  datatype Question = Question(correctAnswer: string, timeElapsed: real, answer: string)

  /** The attributes of the summary line, given the elapsed and penalty times in whole milliseconds. */
  function SummaryAttributes(correct: int, elapsedMs: int, penaltyMs: int, medal: Medal): seq<(string, string)> {
    [ ("CorrectAnswers", IntToString(correct)),
      ("ElapsedTime", IntToString(elapsedMs)),
      ("PenaltyTime", IntToString(penaltyMs)),
      ("TotalScore", IntToString(elapsedMs + penaltyMs)),
      ("Medal", MedalText(medal)) ]
  }

  /** The attributes of the detail line of the question at 1-based position `index`. */
  function ScoreAttributes(index: int, q: Question): seq<(string, string)> {
    [ ("QuestionIndex", IntToString(index)),
      ("AnswerValue", q.correctAnswer),
      ("TimeTaken", IntToString(RoundMs(q.timeElapsed))),
      ("LaneChosen", q.answer) ]
  }

  function ScoreLine(index: int, q: Question): string {
    EmptyElement("        ", "SCORE", ScoreAttributes(index, q))
  }

  /** The detail lines of `questions`, in list order, numbered from 1. */
  function ScoreLines(questions: seq<Question>): (r: seq<string>)
    ensures |r| == |questions|
  {
    seq(|questions|, k requires 0 <= k < |questions| => ScoreLine(k + 1, questions[k]))
  }

  lemma ScoreLinesAppend(questions: seq<Question>, i: nat)
    requires i < |questions|
    ensures ScoreLines(questions[..i + 1]) == ScoreLines(questions[..i]) + [ScoreLine(i + 1, questions[i])]
  {
    var a, b := ScoreLines(questions[..i + 1]), ScoreLines(questions[..i]) + [ScoreLine(i + 1, questions[i])];
    forall k | 0 <= k <= i ensures a[k] == b[k] {
      assert questions[..i + 1][k] == questions[k];
    }
  }

  /** The lines before the detail lines. */
  function Header(gameID: string, correct: int, elapsed: real, penalty: real, medal: Medal): seq<string> {
    [ "<OUTPUT>",
      EmptyElement("    ", "GAME_REFERENCE_NUMBER", [("ID", gameID)]),
      "    <SCORE_SUMMARY>",
      EmptyElement("        ", "Score", SummaryAttributes(correct, RoundMs(elapsed), RoundMs(penalty), medal)),
      "    </SCORE_SUMMARY>",
      "    <SCORE_DETAILS>" ]
  }

  /** The lines after the detail lines. */
  function Footer(state: string): seq<string> {
    [ "    </SCORE_DETAILS>",
      EmptyElement("    ", "END_STATE", [("STATE", state)]),
      "</OUTPUT>" ]
  }

  /** The lines of the result document. */
  function ResultLines(gameID: string, correct: int, elapsed: real, penalty: real,
                       questions: seq<Question>, state: string, times: map<int, real>): seq<string>
  {
    Header(gameID, correct, elapsed, penalty, MedalFor(state, elapsed + penalty, times))
      + ScoreLines(questions) + Footer(state)
  }

  /**
   * `writeXML`: the result document for a run, given the game id, the number
   * of correct answers, the elapsed and penalty seconds, the question list,
   * the end state and the stage's medal times.
   */
  method WriteXML(gameID: string, correct: int, elapsed: real, penalty: real,
                  questions: seq<Question>, state: string, times: map<int, real>) returns (x: string)
    ensures x == Join(ResultLines(gameID, correct, elapsed, penalty, questions, state, times))
  {
    var medal := MedalFor(state, elapsed + penalty, times);
    var header := Header(gameID, correct, elapsed, penalty, medal);
    x := Terminated(header);
    var i := 0;
    assert header + ScoreLines(questions[..0]) == header;
    while i < |questions|
      invariant 0 <= i <= |questions|
      invariant x == Terminated(header + ScoreLines(questions[..i]))
    {
      TerminatedAppend(header + ScoreLines(questions[..i]), ScoreLine(i + 1, questions[i]));
      ScoreLinesAppend(questions, i);
      assert header + ScoreLines(questions[..i + 1])
          == (header + ScoreLines(questions[..i])) + [ScoreLine(i + 1, questions[i])];
      x := x + ScoreLine(i + 1, questions[i]) + "\n";
      i := i + 1;
    }
    assert questions[..i] == questions;
    var body := header + ScoreLines(questions);
    var closing := "    </SCORE_DETAILS>";
    var endState := EmptyElement("    ", "END_STATE", [("STATE", state)]);
    TerminatedAppend(body, closing);
    TerminatedAppend(body + [closing], endState);
    x := x + closing + "\n" + endState + "\n" + "</OUTPUT>";
    ghost var lines := ResultLines(gameID, correct, elapsed, penalty, questions, state, times);
    assert lines[..|lines| - 1] == body + [closing] + [endState];
  }

  lemma NoNewlineInHeader(gameID: string, correct: int, elapsed: real, penalty: real, medal: Medal)
    requires '\n' !in gameID
    ensures NoNewline(Header(gameID, correct, elapsed, penalty, medal))
  {
    NoNewlineInSummary(correct, RoundMs(elapsed), RoundMs(penalty), medal);
    EmptyElementNoNewline("    ", "GAME_REFERENCE_NUMBER", [("ID", gameID)]);
  }

  lemma NoNewlineInSummary(correct: int, elapsedMs: int, penaltyMs: int, medal: Medal)
    ensures '\n' !in EmptyElement("        ", "Score", SummaryAttributes(correct, elapsedMs, penaltyMs, medal))
  {
    assert '\n' !in MedalText(medal);
    EmptyElementNoNewline("        ", "Score", SummaryAttributes(correct, elapsedMs, penaltyMs, medal));
  }

  lemma NoNewlineInFooter(state: string)
    requires '\n' !in state
    ensures NoNewline(Footer(state))
  {
    EmptyElementNoNewline("    ", "END_STATE", [("STATE", state)]);
  }

  lemma NoNewlineInScoreLines(questions: seq<Question>)
    requires forall k | 0 <= k < |questions| :: '\n' !in questions[k].correctAnswer && '\n' !in questions[k].answer
    ensures NoNewline(ScoreLines(questions))
  {
    var details := ScoreLines(questions);
    forall k | 0 <= k < |details| ensures '\n' !in details[k] {
      EmptyElementNoNewline("        ", "SCORE", ScoreAttributes(k + 1, questions[k]));
    }
  }

  /**
   * When the game id, the end state and the questions' answer texts hold no
   * newline, the document splits into exactly one line per question between
   * six header lines and three footer lines, each detail line showing its
   * question in list order with its 1-based index.
   */
  lemma ResultShape(gameID: string, correct: int, elapsed: real, penalty: real,
                    questions: seq<Question>, state: string, times: map<int, real>)
    requires '\n' !in gameID && '\n' !in state
    requires forall k | 0 <= k < |questions| :: '\n' !in questions[k].correctAnswer && '\n' !in questions[k].answer
    ensures var lines := Split(Join(ResultLines(gameID, correct, elapsed, penalty, questions, state, times)), "");
      && |lines| == |questions| + 9
      && lines[0] == "<OUTPUT>" && lines[5] == "    <SCORE_DETAILS>"
      && lines[3] == EmptyElement("        ", "Score",
           SummaryAttributes(correct, RoundMs(elapsed), RoundMs(penalty), MedalFor(state, elapsed + penalty, times)))
      && (forall k | 0 <= k < |questions| :: lines[6 + k] == ScoreLine(k + 1, questions[k]))
      && lines[|lines| - 1] == "</OUTPUT>"
  {
    var medal := MedalFor(state, elapsed + penalty, times);
    var header := Header(gameID, correct, elapsed, penalty, medal);
    var details := ScoreLines(questions);
    var footer := Footer(state);
    NoNewlineInHeader(gameID, correct, elapsed, penalty, medal);
    NoNewlineInFooter(state);
    NoNewlineInScoreLines(questions);
    var lines := header + details + footer;
    assert lines == ResultLines(gameID, correct, elapsed, penalty, questions, state, times);
    assert NoNewline(lines) by {
      forall k | 0 <= k < |lines| ensures '\n' !in lines[k] {
        if k < 6 {
          assert lines[k] == header[k];
        } else if k < 6 + |details| {
          assert lines[k] == details[k - 6];
        } else {
          assert lines[k] == footer[k - 6 - |details|];
        }
      }
    }
    SplitJoin(lines);
  }
}
