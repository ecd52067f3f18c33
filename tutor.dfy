/**
 * The tutoring pipeline of the IIT_Teacher class (src/ai_iit_teacher.py).
 *
 * A question runs through a four-stage graph -- classify, analyze-and-identify,
 * explain-with-analogy, finalize -- with one conditional edge: a casual
 * classification ends the run at once. Every stage makes one language-model
 * call and reads the reply with a small string rule. Answers are cached by
 * (subject, stripped lower-cased question) in a cache shared by every teacher.
 *
 * The language model is an oracle: a queue of canned replies consumed one per
 * call, and a log of every request it received. An empty queue makes the call
 * raise, as a failing remote call does.
 */
module Tutor {
  import opened Wrappers
  import opened PyStr

  // ============================================================ messages and the model

  /** The user prompt of a stage, given by the values filled into its template. */
  datatype Prompt =
    | ClassifyPrompt(question: string)
    | AnalyzePrompt(subject: string, question: string)
    | ExplainPrompt(question: string, topic: string)
    | FinalizePrompt(question: string, topic: string, explanation: string, analogy: string)

  /** A chat message: the per-subject persona, a stage prompt, or a reply of the model. */
  datatype Message =
    | SystemMessage(subject: string)
    | HumanMessage(prompt: Prompt)
    | AiMessage(content: string)

  /** The language-model call raised. */
  datatype Error = GenerationFailure

  /** What the next call returns when `pending` are the replies still to come. */
  function Answer(pending: seq<string>): Result<string, Error> {
    if pending == [] then Failure(GenerationFailure) else Success(pending[0])
  }

  /** The replies left after one call. */
  function Consume(pending: seq<string>): seq<string> {
    if pending == [] then [] else pending[1..]
  }

  /** The chat model as an oracle: canned replies consumed in order, and every request it was sent. */
  class LanguageModel {
    var replies: seq<string>
    var log: seq<seq<Message>>

    constructor (replies: seq<string>)
      ensures this.replies == replies && log == []
    {
      this.replies := replies;
      log := [];
    }

    /** `llm.invoke(messages)`: answers with the next canned reply, or raises when there is none. */
    method Invoke(request: seq<Message>) returns (r: Result<string, Error>)
      modifies this
      ensures log == old(log) + [request]
      ensures r == Answer(old(replies)) && replies == Consume(old(replies))
    {
      log := log + [request];
      if replies == [] {
        r := Failure(GenerationFailure);
      } else {
        r := Success(replies[0]);
        replies := replies[1..];
      }
    }
  }

  // ============================================================ the graph state

  datatype QuestionType = Unclassified | Casual | Subject

  /** The state dictionary threaded through the graph. */
  datatype AgentState = AgentState(
    messages: seq<Message>,
    question: string,
    topicIdentified: string,
    explanation: string,
    analogy: string,
    finalResponse: string,
    questionType: QuestionType,
    analysis: string)

  /** The state `teach` starts the graph with: the question as given, everything else empty. */
  function InitialState(question: string): AgentState {
    AgentState([], question, "", "", "", "", Unclassified, "")
  }

  // ============================================================ classify_question

  const CasualPrefix := "casual|"
  const SubjectPrefix := "subject|"

  /** In a reply that starts with "casual|" the first '|' is the one that ends the prefix. */
  lemma CasualSplitsAfterPrefix(content: string)
    requires StartsWith(content, CasualPrefix)
    ensures SplitOnce(content, "|") == [content[..6], content[7..]]
  {
    assert OccursAt(content, "|", 6) by {
      assert content[6] == CasualPrefix[6];
      assert content[6..7] == "|";
    }
    forall j | 0 <= j < 6 ensures !OccursAt(content, "|", j) {
      assert content[j] == CasualPrefix[j];
      assert content[j..j + 1][0] == content[j];
    }
    FindIsFirst(content, "|", 6);
  }

  /**
   * What classify_question does with the model's reply. A stripped reply that
   * starts with "casual|" makes the question casual and its text after that
   * prefix, stripped, the final response (later '|' stay in it); any other
   * reply, "subject|..." or unrecognised, makes the question a subject question
   * and leaves the final response alone.
   */
  function Classified(s: AgentState, reply: string): (t: AgentState)
    ensures StartsWith(Strip(reply), CasualPrefix) ==>
      t == s.(questionType := Casual, finalResponse := Strip(Strip(reply)[|CasualPrefix|..]))
    ensures !StartsWith(Strip(reply), CasualPrefix) ==> t == s.(questionType := Subject)
  {
    var content := Strip(reply);
    if StartsWith(content, CasualPrefix) then
      CasualSplitsAfterPrefix(content);
      s.(questionType := Casual, finalResponse := Strip(SplitOnce(content, "|")[1]))
    else if StartsWith(content, SubjectPrefix) then
      s.(questionType := Subject)
    else
      s.(questionType := Subject)
  }

  // ============================================================ _analyze_and_identify

  const TopicLabel := "Topic:"

  predicate IsTopicLine(line: string) {
    StartsWith(Strip(line), TopicLabel)
  }

  predicate IsAnalysisLine(line: string) {
    !IsTopicLine(line) && Strip(line) != ""
  }

  /** The value `f` gives the last element of `xs` that satisfies `p`, or "" when none does. */
  function LastWhere(xs: seq<string>, p: string -> bool, f: string -> string): string
    decreases |xs|
  {
    if xs == [] then ""
    else if p(xs[|xs| - 1]) then f(xs[|xs| - 1])
    else LastWhere(xs[..|xs| - 1], p, f)
  }

  /** Element `k` is the last element of `xs` that satisfies `p`. */
  ghost predicate IsLastWhere(xs: seq<string>, p: string -> bool, k: int) {
    0 <= k < |xs| && p(xs[k]) && forall j :: k < j < |xs| ==> !p(xs[j])
  }

  /** With `f` non-empty wherever `p` holds, `LastWhere` is "" exactly when no element satisfies `p`. */
  lemma {:induction false} LastWhereEmptyIff(xs: seq<string>, p: string -> bool, f: string -> string)
    requires forall x :: p(x) ==> f(x) != ""
    ensures LastWhere(xs, p, f) == "" <==> forall k :: 0 <= k < |xs| ==> !p(xs[k])
    decreases |xs|
  {
    if xs != [] {
      var n := |xs| - 1;
      var init := xs[..n];
      LastWhereEmptyIff(init, p, f);
      assert forall k :: 0 <= k < n ==> init[k] == xs[k];
    }
  }

  /** `LastWhere` is `f` of the last element that satisfies `p`. */
  lemma {:induction false} LastWhereAt(xs: seq<string>, p: string -> bool, f: string -> string, k: int)
    requires IsLastWhere(xs, p, k)
    ensures LastWhere(xs, p, f) == f(xs[k])
    decreases |xs|
  {
    var n := |xs| - 1;
    if k < n {
      var init := xs[..n];
      assert init[k] == xs[k];
      assert forall j :: k < j < n ==> init[j] == xs[j];
      LastWhereAt(init, p, f, k);
    }
  }

  /** One more line: the scan's value after `lines[..i + 1]` from its value after `lines[..i]`. */
  lemma ScanStep(lines: seq<string>, i: nat, p: string -> bool)
    requires i < |lines|
    ensures LastWhere(lines[..i + 1], p, Strip)
      == if p(lines[i]) then Strip(lines[i]) else LastWhere(lines[..i], p, Strip)
  {
    assert lines[..i + 1][..i] == lines[..i];
  }

  /** The topic the line scan holds after `lines`. */
  function TopicOf(lines: seq<string>): string {
    LastWhere(lines, IsTopicLine, Strip)
  }

  /** The analysis note the line scan holds after `lines`. */
  function AnalysisOf(lines: seq<string>): string {
    LastWhere(lines, IsAnalysisLine, Strip)
  }

  /**
   * The topic is the stripped text of the last line whose stripped form starts
   * with "Topic:", and "" exactly when there is no such line.
   */
  lemma TopicIsLastTopicLine(lines: seq<string>)
    ensures TopicOf(lines) == "" <==> forall k :: 0 <= k < |lines| ==> !IsTopicLine(lines[k])
    ensures forall k :: IsLastWhere(lines, IsTopicLine, k) ==> TopicOf(lines) == Strip(lines[k])
  {
    forall x | IsTopicLine(x) ensures Strip(x) != "" {
      assert TopicLabel <= Strip(x);
    }
    LastWhereEmptyIff(lines, IsTopicLine, Strip);
    forall k | IsLastWhere(lines, IsTopicLine, k) ensures TopicOf(lines) == Strip(lines[k]) {
      LastWhereAt(lines, IsTopicLine, Strip, k);
    }
  }

  /**
   * The analysis note is the stripped text of the last non-empty line that is
   * not a Topic line, and "" exactly when there is no such line.
   */
  lemma AnalysisIsLastOtherLine(lines: seq<string>)
    ensures AnalysisOf(lines) == "" <==> forall k :: 0 <= k < |lines| ==> !IsAnalysisLine(lines[k])
    ensures forall k :: IsLastWhere(lines, IsAnalysisLine, k) ==> AnalysisOf(lines) == Strip(lines[k])
  {
    LastWhereEmptyIff(lines, IsAnalysisLine, Strip);
    forall k | IsLastWhere(lines, IsAnalysisLine, k) ensures AnalysisOf(lines) == Strip(lines[k]) {
      LastWhereAt(lines, IsAnalysisLine, Strip, k);
    }
  }

  /** The line scan of _analyze_and_identify over `content.split("\n")`. */
  method ScanTopic(content: string) returns (topic: string, analysis: string)
    ensures topic == TopicOf(Split(content, "\n"))
    ensures analysis == AnalysisOf(Split(content, "\n"))
  {
    var lines := Split(content, "\n");
    topic, analysis := "", "";
    var i := 0;
    while i < |lines|
      invariant 0 <= i <= |lines|
      invariant topic == TopicOf(lines[..i])
      invariant analysis == AnalysisOf(lines[..i])
    {
      ScanStep(lines, i, IsTopicLine);
      ScanStep(lines, i, IsAnalysisLine);
      var line := Strip(lines[i]);
      if StartsWith(line, TopicLabel) {
        topic := line;
      } else if line != "" {
        analysis := line;
      }
      i := i + 1;
    }
    assert lines[..|lines|] == lines;
  }

  /** The state after _analyze_and_identify, given the request it sent and the reply it got. */
  function Analyzed(s: AgentState, request: seq<Message>, reply: string): AgentState {
    var lines := Split(reply, "\n");
    s.(messages := request + [AiMessage(reply)], topicIdentified := TopicOf(lines), analysis := AnalysisOf(lines))
  }

  // ============================================================ _explain_with_analogy

  const ExplanationMarker := "Explanation:"
  const AnalogyMarker := "Analogy:"

  /**
   * How _explain_with_analogy reads the reply into (explanation, analogy).
   * Without both markers the whole reply, stripped, is the explanation and the
   * analogy is empty.
   */
  function SplitExplanation(content: string): (r: (string, string))
    ensures !(Contains(content, ExplanationMarker) && Contains(content, AnalogyMarker)) ==>
      r == (Strip(content), "")
  {
    if Contains(content, ExplanationMarker) && Contains(content, AnalogyMarker) then
      var parts := Split(content, AnalogyMarker);
      (Strip(Replace(parts[0], ExplanationMarker, "")), Strip(parts[1]))
    else
      (Strip(content), "")
  }

  /**
   * With both markers in the reply, the explanation is the text before the
   * first "Analogy:" with every "Explanation:" removed, then stripped.
   */
  lemma ExplanationBeforeFirstAnalogy(content: string, i: nat)
    requires Contains(content, ExplanationMarker)
    requires FirstAt(content, AnalogyMarker, i)
    ensures SplitExplanation(content).0 == Strip(Replace(content[..i], ExplanationMarker, ""))
  {
    FindIsFirst(content, AnalogyMarker, i);
  }

  /**
   * With both markers in the reply, the analogy is the text between the first
   * "Analogy:" (at `i`) and the next one (at `k`, or the end of the reply when
   * there is none), stripped: text after a second "Analogy:" is dropped.
   */
  lemma AnalogyBetweenFirstTwoMarkers(content: string, i: nat, k: nat)
    requires Contains(content, ExplanationMarker)
    requires FirstAt(content, AnalogyMarker, i)
    requires i + |AnalogyMarker| <= k <= |content|
    requires forall j :: i + |AnalogyMarker| <= j < k ==> !OccursAt(content, AnalogyMarker, j)
    requires k == |content| || OccursAt(content, AnalogyMarker, k)
    ensures SplitExplanation(content).1 == Strip(content[i + |AnalogyMarker|..k])
  {
    SecondPieceUpTo(content, AnalogyMarker, i, k);
    FindIsFirst(content, AnalogyMarker, i);
  }

  /** The state after _explain_with_analogy. */
  function Explained(s: AgentState, reply: string): AgentState {
    var parts := SplitExplanation(reply);
    s.(explanation := parts.0, analogy := parts.1)
  }

  // ============================================================ _finalize_response

  /** The state after _finalize_response: the reply, unmodified, is the final response. */
  function Finalized(s: AgentState, reply: string): (t: AgentState)
    ensures t.finalResponse == reply
    ensures t.question == s.question && t.topicIdentified == s.topicIdentified
    ensures t.explanation == s.explanation && t.analogy == s.analogy
  {
    s.(finalResponse := reply)
  }

  // ============================================================ the graph

  datatype Stage = Classify | AnalyzeIdentify | ExplainAnalogy | Finalize | End

  /** `route_from_classify`: a casual question ends the run, anything else goes on to the analysis. */
  function RouteFromClassify(s: AgentState): Stage {
    if s.questionType == Casual then End else AnalyzeIdentify
  }

  /** The edges of the graph. */
  function Next(stage: Stage, s: AgentState): Stage {
    match stage
    case Classify => RouteFromClassify(s)
    case AnalyzeIdentify => ExplainAnalogy
    case ExplainAnalogy => Finalize
    case Finalize => End
    case End => End
  }

  /** How many stages at most are still ahead. */
  function Rank(stage: Stage): nat {
    match stage
    case Classify => 4
    case AnalyzeIdentify => 3
    case ExplainAnalogy => 2
    case Finalize => 1
    case End => 0
  }

  /** Control flow depends on the question type alone, and every edge leads strictly forward. */
  lemma RoutingIsByQuestionType(stage: Stage, s: AgentState)
    ensures stage != End ==> Rank(Next(stage, s)) < Rank(stage)
    ensures Next(Classify, s) == End <==> s.questionType == Casual
    ensures s.questionType != Casual ==> Next(Classify, s) == AnalyzeIdentify
    ensures forall t: AgentState :: stage != Classify ==> Next(stage, t) == Next(stage, s)
  {
  }

  /** The user prompt a stage fills from the state. */
  function StagePrompt(stage: Stage, subject: string, s: AgentState): Prompt
    requires stage != End
  {
    match stage
    case Classify => ClassifyPrompt(s.question)
    case AnalyzeIdentify => AnalyzePrompt(subject, s.question)
    case ExplainAnalogy => ExplainPrompt(s.question, s.topicIdentified)
    case Finalize => FinalizePrompt(s.question, s.topicIdentified, s.explanation, s.analogy)
  }

  /** Every stage sends the persona system message first and its own prompt second. */
  function Request(stage: Stage, subject: string, s: AgentState): seq<Message>
    requires stage != End
  {
    [SystemMessage(subject), HumanMessage(StagePrompt(stage, subject, s))]
  }

  /** What a stage does to the state once its call has returned `reply`. */
  function Effect(stage: Stage, subject: string, s: AgentState, reply: string): AgentState
    requires stage != End
  {
    match stage
    case Classify => Classified(s, reply)
    case AnalyzeIdentify => Analyzed(s, Request(stage, subject, s), reply)
    case ExplainAnalogy => Explained(s, reply)
    case Finalize => Finalized(s, reply)
  }

  /** One stage: its call, then its effect; a raising call ends the run. */
  function Step(stage: Stage, subject: string, s: AgentState, pending: seq<string>): Result<AgentState, Error>
    requires stage != End
  {
    match Answer(pending)
    case Failure(e) => Failure(e)
    case Success(reply) => Success(Effect(stage, subject, s, reply))
  }

  /** The outcome of a run: the final state or the error, the requests sent, and the replies left. */
  datatype Run = Run(result: Result<AgentState, Error>, sent: seq<seq<Message>>, rest: seq<string>)

  /** The graph run from `stage` on, the model's replies still to come being `pending`. */
  function RunFrom(subject: string, stage: Stage, s: AgentState, pending: seq<string>): Run
    decreases Rank(stage)
  {
    if stage == End then Run(Success(s), [], pending)
    else
      var request := Request(stage, subject, s);
      match Step(stage, subject, s, pending)
      case Failure(e) => Run(Failure(e), [request], [])
      case Success(t) =>
        RoutingIsByQuestionType(stage, t);
        var r := RunFrom(subject, Next(stage, t), t, pending[1..]);
        Run(r.result, [request] + r.sent, r.rest)
  }

  /**
   * A casual classification ends the run after exactly one call: the question
   * becomes casual, the reply after "casual|" is the final response, and the
   * topic, explanation and analogy stay empty.
   */
  lemma CasualRunMakesOneCall(subject: string, question: string, pending: seq<string>)
    requires pending != [] && StartsWith(Strip(pending[0]), CasualPrefix)
    ensures var s := InitialState(question);
      RunFrom(subject, Classify, s, pending)
      == Run(Success(s.(questionType := Casual, finalResponse := Strip(Strip(pending[0])[|CasualPrefix|..]))),
             [Request(Classify, subject, s)],
             pending[1..])
  {
    var s := InitialState(question);
    var t := Classified(s, pending[0]);
    assert t == s.(questionType := Casual, finalResponse := Strip(Strip(pending[0])[|CasualPrefix|..]));
    assert Step(Classify, subject, s, pending) == Success(t);
    assert Next(Classify, t) == End;
    assert RunFrom(subject, End, t, pending[1..]) == Run(Success(t), [], pending[1..]);
  }

  /**
   * Any other classification runs analyze, explain and finalize in that order:
   * exactly four calls, each stage's prompt filled from the previous stages'
   * results, and the finalize reply as the final response.
   */
  lemma SubjectRunMakesFourCalls(subject: string, question: string, pending: seq<string>)
    requires |pending| >= 4 && !StartsWith(Strip(pending[0]), CasualPrefix)
    ensures var s0 := InitialState(question);
      var s1 := Classified(s0, pending[0]);
      var s2 := Analyzed(s1, Request(AnalyzeIdentify, subject, s1), pending[1]);
      var s3 := Explained(s2, pending[2]);
      var s4 := Finalized(s3, pending[3]);
      && s1.questionType == Subject
      && RunFrom(subject, Classify, s0, pending)
         == Run(Success(s4),
                [Request(Classify, subject, s0), Request(AnalyzeIdentify, subject, s1),
                 Request(ExplainAnalogy, subject, s2), Request(Finalize, subject, s3)],
                pending[4..])
      && s4.finalResponse == pending[3]
  {
    var s0 := InitialState(question);
    var s1 := Classified(s0, pending[0]);
    var s2 := Analyzed(s1, Request(AnalyzeIdentify, subject, s1), pending[1]);
    var s3 := Explained(s2, pending[2]);
    var s4 := Finalized(s3, pending[3]);
    assert RunFrom(subject, End, s4, pending[4..]) == Run(Success(s4), [], pending[4..]);
    assert pending[1..][1..][1..][1..] == pending[4..];
    assert RunFrom(subject, Finalize, s3, pending[3..]) == Run(Success(s4), [Request(Finalize, subject, s3)], pending[4..]);
    assert RunFrom(subject, ExplainAnalogy, s2, pending[2..])
      == Run(Success(s4), [Request(ExplainAnalogy, subject, s2), Request(Finalize, subject, s3)], pending[4..]);
    assert pending[1..][1..] == pending[2..];
    assert RunFrom(subject, AnalyzeIdentify, s1, pending[1..])
      == Run(Success(s4), [Request(AnalyzeIdentify, subject, s1), Request(ExplainAnalogy, subject, s2), Request(Finalize, subject, s3)], pending[4..]);
  }

  /**
   * A run fails only when the replies run out before it ends: with no reply at
   * all, or a subject classification and fewer than four replies. A failed run
   * has used every reply and sent one request more than there were replies.
   */
  lemma RunFailsExactlyWhenRepliesRunOut(subject: string, question: string, pending: seq<string>)
    ensures var r := RunFrom(subject, Classify, InitialState(question), pending);
      && (r.result.Failure? <==> (pending == [] || (!StartsWith(Strip(pending[0]), CasualPrefix) && |pending| < 4)))
      && (r.result.Failure? ==> r.rest == [] && |r.sent| == |pending| + 1)
  {
    var s0 := InitialState(question);
    if pending != [] {
      if StartsWith(Strip(pending[0]), CasualPrefix) {
        CasualRunMakesOneCall(subject, question, pending);
      } else if |pending| >= 4 {
        SubjectRunMakesFourCalls(subject, question, pending);
      } else {
        var s1 := Classified(s0, pending[0]);
        assert RunFrom(subject, Classify, s0, pending).sent
          == [Request(Classify, subject, s0)] + RunFrom(subject, AnalyzeIdentify, s1, pending[1..]).sent;
        assert RunFrom(subject, Classify, s0, pending).result == RunFrom(subject, AnalyzeIdentify, s1, pending[1..]).result;
        if |pending| >= 2 {
          var s2 := Analyzed(s1, Request(AnalyzeIdentify, subject, s1), pending[1]);
          assert pending[1..][1..] == pending[2..];
          if |pending| == 3 {
            var s3 := Explained(s2, pending[2]);
            assert pending[2..][1..] == [];
            assert RunFrom(subject, Finalize, s3, []) == Run(Failure(GenerationFailure), [Request(Finalize, subject, s3)], []);
          }
        }
      }
    }
  }

  /** No stage changes the question. */
  lemma EffectKeepsQuestion(stage: Stage, subject: string, s: AgentState, reply: string)
    requires stage != End
    ensures Effect(stage, subject, s, reply).question == s.question
  {
  }

  /** One stage of a run: its request goes out first and the rest of the run goes on from its effect. */
  lemma RunFromStep(subject: string, stage: Stage, s: AgentState, pending: seq<string>)
    requires stage != End
    ensures pending == [] ==>
      RunFrom(subject, stage, s, pending) == Run(Failure(GenerationFailure), [Request(stage, subject, s)], [])
    ensures pending != [] ==>
      var t := Effect(stage, subject, s, pending[0]);
      var r := RunFrom(subject, Next(stage, t), t, pending[1..]);
      RunFrom(subject, stage, s, pending) == Run(r.result, [Request(stage, subject, s)] + r.sent, r.rest)
  {
  }

  /** The classify stage and its conditional edge: a casual question ends the run, any other goes on to analyze. */
  lemma ClassifyRoutes(subject: string, s: AgentState, pending: seq<string>)
    requires pending != []
    ensures var t := Classified(s, pending[0]);
      var head := [Request(Classify, subject, s)];
      var r := RunFrom(subject, Classify, s, pending);
      && (t.questionType == Casual ==> r == Run(Success(t), head, pending[1..]))
      && (t.questionType != Casual ==>
            var r2 := RunFrom(subject, AnalyzeIdentify, t, pending[1..]);
            r == Run(r2.result, head + r2.sent, r2.rest))
  {
    RunFromStep(subject, Classify, s, pending);
    var t := Classified(s, pending[0]);
    if t.questionType == Casual {
      assert RunFrom(subject, End, t, pending[1..]) == Run(Success(t), [], pending[1..]);
    }
  }

  /** The graph never changes the question: the state carries it exactly as `teach` was given it. */
  lemma {:induction false} RunKeepsQuestion(subject: string, stage: Stage, s: AgentState, pending: seq<string>)
    ensures var r := RunFrom(subject, stage, s, pending);
      r.result.Success? ==> r.result.value.question == s.question
    decreases Rank(stage)
  {
    if stage != End {
      RunFromStep(subject, stage, s, pending);
      if pending != [] {
        var t := Effect(stage, subject, s, pending[0]);
        EffectKeepsQuestion(stage, subject, s, pending[0]);
        RoutingIsByQuestionType(stage, t);
        RunKeepsQuestion(subject, Next(stage, t), t, pending[1..]);
      }
    }
  }

  // ============================================================ the response cache

  /** `(self.subject, question.strip().lower())`. */
  datatype CacheKey = CacheKey(subject: string, question: string)

  function KeyFor(subject: string, question: string): CacheKey {
    CacheKey(subject, Lower(Strip(question)))
  }

  /** The class attribute `_response_cache`: one object, shared by every teacher. */
  class ResponseCache {
    var entries: map<CacheKey, string>

    constructor ()
      ensures entries == map[]
    {
      entries := map[];
    }
  }

  /** The outcome of `teach`: what it returns, the cache after it, the requests it sent and the replies left. */
  datatype Taught = Taught(result: Result<string, Error>, entries: map<CacheKey, string>, sent: seq<seq<Message>>, rest: seq<string>)

  /** `teach(question)` for a teacher of `subject`, given the cache and the replies still to come. */
  function TeachOutcome(subject: string, entries: map<CacheKey, string>, question: string, pending: seq<string>): Taught {
    var key := KeyFor(subject, question);
    if key in entries then Taught(Success(entries[key]), entries, [], pending)
    else
      Store(entries, key, RunFrom(subject, Classify, InitialState(question), pending))
  }

  /** A miss: the run's final response is returned and stored under `key`; a raising run stores nothing. */
  function Store(entries: map<CacheKey, string>, key: CacheKey, run: Run): Taught {
    match run.result
    case Failure(e) => Taught(Failure(e), entries, run.sent, run.rest)
    case Success(s) => Taught(Success(s.finalResponse), entries[key := s.finalResponse], run.sent, run.rest)
  }

  /** Storing after a miss adds exactly `key`, with the run's answer, and leaves every other entry alone. */
  lemma StoreTouchesOnlyKey(entries: map<CacheKey, string>, key: CacheKey, run: Run)
    requires key !in entries
    ensures var t := Store(entries, key, run);
      && t.sent == run.sent && t.rest == run.rest
      && (run.result.Success? ==>
            && t.result == Success(run.result.value.finalResponse)
            && t.entries.Keys == entries.Keys + {key}
            && t.entries[key] == t.result.value
            && (forall k :: k in entries ==> t.entries[k] == entries[k]))
      && (run.result.Failure? ==> t.result == Failure(run.result.error) && t.entries == entries)
  {
  }

  /**
   * On a cache hit `teach` returns the stored answer and makes no call. On a
   * miss it returns the run's final response and stores it under exactly the
   * question's key, no other entry changing; a run that raises stores nothing.
   */
  lemma CacheHitOrStore(subject: string, entries: map<CacheKey, string>, question: string, pending: seq<string>)
    ensures var t := TeachOutcome(subject, entries, question, pending);
      var key := KeyFor(subject, question);
      && (key in entries ==> t == Taught(Success(entries[key]), entries, [], pending))
      && (key !in entries && t.result.Success? ==>
            && t.entries.Keys == entries.Keys + {key}
            && t.entries[key] == t.result.value
            && (forall k :: k in entries ==> t.entries[k] == entries[k]))
      && (t.result.Failure? ==> t.entries == entries && key !in entries)
  {
    var key := KeyFor(subject, question);
    if key !in entries {
      StoreTouchesOnlyKey(entries, key, RunFrom(subject, Classify, InitialState(question), pending));
    }
  }

  /**
   * Asking again a question that was answered, in any spelling with the same
   * stripped lower-case form, returns the same answer without any call.
   */
  lemma RepeatedQuestionIsCached(subject: string, entries: map<CacheKey, string>, q1: string, q2: string, p1: seq<string>, p2: seq<string>)
    requires Lower(Strip(q1)) == Lower(Strip(q2))
    requires TeachOutcome(subject, entries, q1, p1).result.Success?
    ensures var t1 := TeachOutcome(subject, entries, q1, p1);
      TeachOutcome(subject, t1.entries, q2, p2) == Taught(t1.result, t1.entries, [], p2)
  {
  }

  /** A miss whose classification is casual caches the casual reply after one call. */
  lemma CasualReplyIsCached(subject: string, entries: map<CacheKey, string>, question: string, pending: seq<string>)
    requires KeyFor(subject, question) !in entries
    requires pending != [] && StartsWith(Strip(pending[0]), CasualPrefix)
    ensures var t := TeachOutcome(subject, entries, question, pending);
      var answer := Strip(Strip(pending[0])[|CasualPrefix|..]);
      t == Taught(Success(answer), entries[KeyFor(subject, question) := answer],
                  [Request(Classify, subject, InitialState(question))], pending[1..])
  {
    CasualRunMakesOneCall(subject, question, pending);
  }

  /** A miss with a subject question makes four calls, answers with the finalize reply and caches it. */
  lemma SubjectAnswerIsCached(subject: string, entries: map<CacheKey, string>, question: string, pending: seq<string>)
    requires KeyFor(subject, question) !in entries
    requires |pending| >= 4 && !StartsWith(Strip(pending[0]), CasualPrefix)
    ensures var t := TeachOutcome(subject, entries, question, pending);
      && t.result == Success(pending[3])
      && t.entries == entries[KeyFor(subject, question) := pending[3]]
      && |t.sent| == 4 && t.rest == pending[4..]
  {
    SubjectRunMakesFourCalls(subject, question, pending);
  }

  // ============================================================ IIT_Teacher

  class Teacher {
    const subject: string
    const llm: LanguageModel
    /** The class-level cache: every teacher built with the same object sees the same entries. */
    const cache: ResponseCache

    /** `__init__`: only the subject normalisation; the model client and the cache are given. */
    constructor (subject: string, llm: LanguageModel, cache: ResponseCache)
      ensures this.subject == Lower(subject) && this.llm == llm && this.cache == cache
    {
      this.subject := Lower(subject);
      this.llm := llm;
      this.cache := cache;
    }

    /** Node 1, classify_question. */
    method ClassifyQuestion(state: AgentState) returns (r: Result<AgentState, Error>)
      modifies llm
      ensures llm.log == old(llm.log) + [Request(Classify, subject, state)]
      ensures llm.replies == Consume(old(llm.replies))
      ensures old(llm.replies) == [] ==> r == Failure(GenerationFailure)
      ensures old(llm.replies) != [] ==> r == Success(Classified(state, old(llm.replies)[0]))
    {
      var response := llm.Invoke([SystemMessage(subject), HumanMessage(ClassifyPrompt(state.question))]);
      match response
      case Failure(e) => r := Failure(e);
      case Success(content) => r := Success(Classified(state, content));
    }

    /** Node 2, _analyze_and_identify. */
    method AnalyzeAndIdentify(state: AgentState) returns (r: Result<AgentState, Error>)
      modifies llm
      ensures llm.log == old(llm.log) + [Request(AnalyzeIdentify, subject, state)]
      ensures llm.replies == Consume(old(llm.replies))
      ensures old(llm.replies) == [] ==> r == Failure(GenerationFailure)
      ensures old(llm.replies) != [] ==>
        r == Success(Analyzed(state, Request(AnalyzeIdentify, subject, state), old(llm.replies)[0]))
    {
      var request := [SystemMessage(subject), HumanMessage(AnalyzePrompt(subject, state.question))];
      var response := llm.Invoke(request);
      match response
      case Failure(e) => r := Failure(e);
      case Success(content) =>
        var topic, analysis := ScanTopic(content);
        r := Success(state.(messages := request + [AiMessage(content)], topicIdentified := topic, analysis := analysis));
    }

    /** Node 3, _explain_with_analogy. */
    method ExplainWithAnalogy(state: AgentState) returns (r: Result<AgentState, Error>)
      modifies llm
      ensures llm.log == old(llm.log) + [Request(ExplainAnalogy, subject, state)]
      ensures llm.replies == Consume(old(llm.replies))
      ensures old(llm.replies) == [] ==> r == Failure(GenerationFailure)
      ensures old(llm.replies) != [] ==> r == Success(Explained(state, old(llm.replies)[0]))
    {
      var response := llm.Invoke([SystemMessage(subject), HumanMessage(ExplainPrompt(state.question, state.topicIdentified))]);
      match response
      case Failure(e) => r := Failure(e);
      case Success(content) =>
        var parts := SplitExplanation(content);
        r := Success(state.(explanation := parts.0, analogy := parts.1));
    }

    /** Node 4, _finalize_response: the reply becomes the final response as it is. */
    method FinalizeResponse(state: AgentState) returns (r: Result<AgentState, Error>)
      modifies llm
      ensures llm.log == old(llm.log) + [Request(Finalize, subject, state)]
      ensures llm.replies == Consume(old(llm.replies))
      ensures old(llm.replies) == [] ==> r == Failure(GenerationFailure)
      ensures old(llm.replies) != [] ==> r == Success(Finalized(state, old(llm.replies)[0]))
    {
      var prompt := FinalizePrompt(state.question, state.topicIdentified, state.explanation, state.analogy);
      var response := llm.Invoke([SystemMessage(subject), HumanMessage(prompt)]);
      match response
      case Failure(e) => r := Failure(e);
      case Success(content) => r := Success(state.(finalResponse := content));
    }

    /**
     * `self.graph.invoke(state)`: classify, then along route_from_classify
     * either to the end or on to the subject stages; a raising node ends the
     * run with its exception.
     */
    method InvokeGraph(initial: AgentState) returns (r: Result<AgentState, Error>)
      modifies llm
      ensures var run := RunFrom(subject, Classify, initial, old(llm.replies));
        r == run.result && llm.log == old(llm.log) + run.sent && llm.replies == run.rest
    {
      if llm.replies == [] {
        RunFromStep(subject, Classify, initial, llm.replies);
      } else {
        ClassifyRoutes(subject, initial, llm.replies);
      }
      var classified := ClassifyQuestion(initial);
      if classified.Failure? {
        return Failure(classified.error);
      }
      var s1 := classified.value;
      if RouteFromClassify(s1) == End {
        return Success(s1);
      }
      r := SubjectStages(s1);
    }

    /** The edges analyze -> explain -> finalize -> end that a subject question takes. */
    method SubjectStages(s1: AgentState) returns (r: Result<AgentState, Error>)
      modifies llm
      ensures var run := RunFrom(subject, AnalyzeIdentify, s1, old(llm.replies));
        r == run.result && llm.log == old(llm.log) + run.sent && llm.replies == run.rest
    {
      RunFromStep(subject, AnalyzeIdentify, s1, llm.replies);
      var analyzed := AnalyzeAndIdentify(s1);
      if analyzed.Failure? {
        return Failure(analyzed.error);
      }
      var s2 := analyzed.value;
      r := ExplainStages(s2);
    }

    /** The edges explain -> finalize -> end. */
    method ExplainStages(s2: AgentState) returns (r: Result<AgentState, Error>)
      modifies llm
      ensures var run := RunFrom(subject, ExplainAnalogy, s2, old(llm.replies));
        r == run.result && llm.log == old(llm.log) + run.sent && llm.replies == run.rest
    {
      RunFromStep(subject, ExplainAnalogy, s2, llm.replies);
      var explained := ExplainWithAnalogy(s2);
      if explained.Failure? {
        return Failure(explained.error);
      }
      var s3 := explained.value;
      RunFromStep(subject, Finalize, s3, llm.replies);
      var finalized := FinalizeResponse(s3);
      if finalized.Failure? {
        return Failure(finalized.error);
      }
      var s4 := finalized.value;
      assert RunFrom(subject, End, s4, llm.replies) == Run(Success(s4), [], llm.replies);
      r := Success(s4);
    }

    /** `teach(question)`: the cached answer, or the graph's final response, which is then cached. */
    method Teach(question: string) returns (r: Result<string, Error>)
      modifies llm, cache
      ensures var t := TeachOutcome(subject, old(cache.entries), question, old(llm.replies));
        && r == t.result && cache.entries == t.entries
        && llm.log == old(llm.log) + t.sent && llm.replies == t.rest
    {
      var key := KeyFor(subject, question);
      if key in cache.entries {
        return Success(cache.entries[key]);
      }
      var result := InvokeGraph(InitialState(question));
      match result
      case Failure(e) =>
        r := Failure(e);
      case Success(state) =>
        cache.entries := cache.entries[key := state.finalResponse];
        r := Success(state.finalResponse);
    }
  }

  /**
   * The cache is shared: a second, fresh teacher of the same subject answers a
   * question the first one answered from the cache, without any call.
   */
  method FreshTeacherSeesCache(subject: string, q1: string, q2: string, llm: LanguageModel, cache: ResponseCache)
    returns (first: Result<string, Error>, second: Result<string, Error>)
    requires Lower(Strip(q1)) == Lower(Strip(q2))
    modifies llm, cache
    ensures var t := TeachOutcome(Lower(subject), old(cache.entries), q1, old(llm.replies));
      && first == t.result
      && (first.Success? ==> second == first && llm.log == old(llm.log) + t.sent && llm.replies == t.rest)
  {
    var a := new Teacher(subject, llm, cache);
    first := a.Teach(q1);
    var b := new Teacher(subject, llm, cache);
    second := b.Teach(q2);
  }
}
