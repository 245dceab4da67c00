/**
 * The diagnostic report: the mock report used whenever the language model
 * is unavailable or gives nothing back, the fixed "no findings" text, and the
 * prompt with one line per detected pathology.
 */
module Report {
  import opened Wrappers
  import opened Text
  import opened Detection

  const MockHead := "Mock Diagnostic Report:\nBased on the analysis of the dental X-ray, the following findings were observed: "
  const MockTail := ".\n\nPlease consult with a dental professional for a complete evaluation and treatment plan."
  const NoFindings := "No pathologies detected."
  const EmptyList := "no pathologies"

  const PromptHeader := "You are a dental radiologist. Based on the image annotations provided below (which include detected pathologies), write a concise diagnostic report in clinical language.\n\nDetected Pathologies:\n"
  const PromptFooter := "\nPlease provide a brief paragraph highlighting:\n1. Detected pathologies\n2. Location if possible (e.g., upper left molar)\n3. Clinical advice (optional)\n\nKeep the report professional and concise."

  /** What the language model gave back: a response and its text, no response, or an exception. */
  datatype ModelReply = Answer(text: string) | NoResponse | Failed(message: string)

  function Classes(predictions: seq<Prediction>): (cs: seq<string>)
    ensures |cs| == |predictions| && forall i :: 0 <= i < |cs| ==> cs[i] == predictions[i].cls
  {
    seq(|predictions|, i requires 0 <= i < |predictions| => predictions[i].cls)
  }

  /** The class names joined by ", ", or "no pathologies" for an empty list. */
  function PathologyList(predictions: seq<Prediction>): string
  {
    if |predictions| > 0 then Join(Classes(predictions), ", ") else EmptyList
  }

  function MockReport(predictions: seq<Prediction>): (r: string)
    ensures |r| >= |MockHead| + |MockTail|
    ensures r[..|MockHead|] == MockHead && r[|r| - |MockTail|..] == MockTail
    ensures |predictions| == 0 ==> r[|MockHead|..|r| - |MockTail|] == EmptyList
    ensures |predictions| > 0 ==> r[|MockHead|..|r| - |MockTail|] == Join(Classes(predictions), ", ")
  {
    MockHead + PathologyList(predictions) + MockTail
  }

  /** The findings of a mock report: the text between its fixed heading and its fixed closing text. */
  function MockFindings(predictions: seq<Prediction>): string
  {
    var r := MockReport(predictions);
    r[|MockHead|..|r| - |MockTail|]
  }

  /**
   * The findings grow one class at a time, in prediction order: one
   * prediction gives its class alone, and each further prediction appends
   * ", " and its class.
   */
  lemma MockReportSnoc(predictions: seq<Prediction>, p: Prediction)
    ensures MockFindings([p]) == p.cls
    ensures |predictions| > 0 ==> MockFindings(predictions + [p]) == MockFindings(predictions) + ", " + p.cls
  {
    assert Classes([p]) == [p.cls];
    if |predictions| > 0 {
      assert Classes(predictions + [p]) == Classes(predictions) + [p.cls];
      JoinSnoc(Classes(predictions), p.cls, ", ");
    }
  }

  /** `t` occurs in `s` starting at position `k`. */
  predicate OccursAt(t: string, s: string, k: int)
  {
    0 <= k <= |s| - |t| && s[k..k + |t|] == t
  }

  /** Each joined element occurs in the joined text. */
  lemma {:induction false} JoinContains(xs: seq<string>, sep: string, i: nat)
    requires i < |xs|
    ensures exists k :: OccursAt(xs[i], Join(xs, sep), k)
  {
    var j := Join(xs, sep);
    if |xs| == 1 {
      assert OccursAt(xs[0], j, 0);
    } else if i == 0 {
      assert j == xs[0] + (sep + Join(xs[1..], sep));
      assert OccursAt(xs[0], j, 0);
    } else {
      var rest := Join(xs[1..], sep);
      assert j == (xs[0] + sep) + rest;
      JoinContains(xs[1..], sep, i - 1);
      var k :| OccursAt(xs[1..][i - 1], rest, k);
      var off := |xs[0] + sep|;
      assert j[off + k..off + k + |xs[i]|] == rest[k..k + |xs[i]|];
      assert OccursAt(xs[i], j, off + k);
    }
  }

  /** The list of findings names the class of the i-th prediction. */
  lemma PathologyListNames(predictions: seq<Prediction>, i: nat)
    requires i < |predictions|
    ensures exists k :: OccursAt(predictions[i].cls, PathologyList(predictions), k)
  {
    var cs := Classes(predictions);
    JoinContains(cs, ", ", i);
    var k :| OccursAt(cs[i], Join(cs, ", "), k);
    assert OccursAt(predictions[i].cls, PathologyList(predictions), k);
  }

  /**
   * The mock report is the fixed frame around the list of findings: every
   * detected class occurs in it after the frame's opening text and before
   * its closing text.
   */
  lemma MockReportNamesFindings(predictions: seq<Prediction>, i: nat)
    requires i < |predictions|
    ensures MockReport(predictions)[..|MockHead|] == MockHead
    ensures exists k :: |MockHead| <= k <= |MockReport(predictions)| - |MockTail| - |predictions[i].cls| &&
                        OccursAt(predictions[i].cls, MockReport(predictions), k)
  {
    var list := PathologyList(predictions);
    PathologyListNames(predictions, i);
    var k :| OccursAt(predictions[i].cls, list, k);
    OccursInFrame(predictions[i].cls, MockHead, list, MockTail, k);
  }

  /** An occurrence inside the middle part of `head + mid + tail` is an occurrence in the whole, shifted by `head`. */
  lemma OccursInFrame(t: string, head: string, mid: string, tail: string, k: int)
    requires OccursAt(t, mid, k)
    ensures (head + mid + tail)[..|head|] == head
    ensures OccursAt(t, head + mid + tail, |head| + k)
  {
    var whole := head + mid + tail;
    assert whole[|head| + k..|head| + k + |t|] == mid[k..k + |t|];
  }

  /** One prompt line: `- <class> (Confidence: <percent>)` and a newline. */
  function PromptLine(p: Prediction, percent: real -> string): string
  {
    "- " + p.cls + " (Confidence: " + percent(p.confidence) + ")\n"
  }

  /** The lines of all predictions, in order. */
  function PromptBody(predictions: seq<Prediction>, percent: real -> string): string
  {
    if |predictions| == 0 then ""
    else PromptBody(predictions[..|predictions| - 1], percent) + PromptLine(predictions[|predictions| - 1], percent)
  }

  /** After any fixed text, the body of the first i + 1 predictions is that of the first i and one more line. */
  lemma PromptBodySnoc(head: string, predictions: seq<Prediction>, percent: real -> string, i: nat)
    requires i < |predictions|
    ensures head + PromptBody(predictions[..i + 1], percent) ==
      (head + PromptBody(predictions[..i], percent)) + PromptLine(predictions[i], percent)
  {
    assert predictions[..i + 1][..i] == predictions[..i];
  }

  function Prompt(predictions: seq<Prediction>, percent: real -> string): (r: string)
    ensures |r| >= |PromptHeader| + |PromptFooter|
    ensures r[..|PromptHeader|] == PromptHeader && r[|r| - |PromptFooter|..] == PromptFooter
    ensures r[|PromptHeader|..|r| - |PromptFooter|] == PromptBody(predictions, percent)
  {
    PromptHeader + PromptBody(predictions, percent) + PromptFooter
  }

  /** The prompt, built line by line. */
  method BuildPrompt(predictions: seq<Prediction>, percent: real -> string) returns (prompt: string)
    ensures prompt == Prompt(predictions, percent)
  {
    prompt := PromptHeader;
    var i := 0;
    while i < |predictions|
      invariant 0 <= i <= |predictions|
      invariant prompt == PromptHeader + PromptBody(predictions[..i], percent)
    {
      PromptBodySnoc(PromptHeader, predictions, percent, i);
      prompt := prompt + PromptLine(predictions[i], percent);
      i := i + 1;
    }
    assert predictions[..|predictions|] == predictions;
    prompt := prompt + PromptFooter;
  }

  function Count(s: string, c: char): nat
  {
    if |s| == 0 then 0 else Count(s[..|s| - 1], c) + (if s[|s| - 1] == c then 1 else 0)
  }

  lemma {:induction false} CountAppend(a: string, b: string, c: char)
    ensures Count(a + b, c) == Count(a, c) + Count(b, c)
    decreases |b|
  {
    if |b| > 0 {
      assert (a + b)[..|a + b| - 1] == a + b[..|b| - 1];
      CountAppend(a, b[..|b| - 1], c);
    } else {
      assert a + b == a;
    }
  }

  lemma {:induction false} CountNone(s: string, c: char)
    requires forall i :: 0 <= i < |s| ==> s[i] != c
    ensures Count(s, c) == 0
  {
    if |s| > 0 {
      CountNone(s[..|s| - 1], c);
    }
  }

  /**
   * When class names and percentages have no line breaks, the body has
   * exactly one line per prediction.
   */
  lemma {:induction false} PromptBodyLines(predictions: seq<Prediction>, percent: real -> string)
    requires forall i :: 0 <= i < |predictions| ==> '\n' !in predictions[i].cls && '\n' !in percent(predictions[i].confidence)
    ensures Count(PromptBody(predictions, percent), '\n') == |predictions|
  {
    if |predictions| > 0 {
      var init, p := predictions[..|predictions| - 1], predictions[|predictions| - 1];
      PromptBodyLines(init, percent);
      var pct := percent(p.confidence);
      CountNone("- " + p.cls + " (Confidence: " + pct + ")", '\n');
      assert PromptLine(p, percent) == ("- " + p.cls + " (Confidence: " + pct + ")") + "\n";
      CountAppend("- " + p.cls + " (Confidence: " + pct + ")", "\n", '\n');
      CountAppend(PromptBody(init, percent), PromptLine(p, percent), '\n');
    }
  }

  /** The lines of the first j predictions start the body: lines appear in prediction order. */
  lemma {:induction false} PromptBodyInOrder(predictions: seq<Prediction>, percent: real -> string, j: nat)
    requires j <= |predictions|
    ensures var body, front := PromptBody(predictions, percent), PromptBody(predictions[..j], percent);
      |front| <= |body| && body[..|front|] == front
    decreases |predictions|
  {
    if j < |predictions| {
      var init := predictions[..|predictions| - 1];
      PromptBodyInOrder(init, percent, j);
      assert init[..j] == predictions[..j];
    } else {
      assert predictions[..j] == predictions;
    }
  }

  /** An API key counts only when present and non-empty. */
  predicate HasKey(apiKey: Option<string>)
  {
    apiKey.Some? && apiKey.value != ""
  }

  /**
   * The report for a list of predictions. Without a key, the mock report;
   * with a key and nothing detected, the fixed "no findings" text, and the
   * model is not asked; otherwise the prompt is sent, and a non-empty answer
   * is returned verbatim while no answer, an empty one or a failure falls
   * back to the mock report. `sent` is the prompt the model was given.
   */
  method GenerateReport(apiKey: Option<string>, predictions: seq<Prediction>, percent: real -> string, reply: ModelReply)
    returns (report: string, sent: Option<string>)
    ensures !HasKey(apiKey) ==> report == MockReport(predictions) && sent.None?
    ensures HasKey(apiKey) && |predictions| == 0 ==> report == NoFindings && sent.None?
    ensures HasKey(apiKey) && |predictions| > 0 ==> sent == Some(Prompt(predictions, percent))
    ensures HasKey(apiKey) && |predictions| > 0 && reply.Answer? && reply.text != "" ==> report == reply.text
    ensures HasKey(apiKey) && |predictions| > 0 && !(reply.Answer? && reply.text != "") ==> report == MockReport(predictions)
  {
    sent := None;
    if !HasKey(apiKey) {
      report := MockReport(predictions);
      return;
    }
    if |predictions| == 0 {
      report := NoFindings;
      return;
    }
    var prompt := BuildPrompt(predictions, percent);
    sent := Some(prompt);
    match reply
    case Answer(text) =>
      if text != "" {
        report := text;
      } else {
        report := MockReport(predictions);
      }
    case NoResponse =>
      report := MockReport(predictions);
    case Failed(_) =>
      report := MockReport(predictions);
  }
}
