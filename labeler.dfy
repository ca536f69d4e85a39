/** call_gemini_api of annotateToDb.py: three free-form labels for one
    paper from the remote model, asked for with the first 4000 characters of
    the text, in at most five attempts. An empty response waits ten seconds,
    an answer that does not decode to a list of three is retried at once, a
    rate limit waits sixty seconds, a safety block gives up, and any other
    error leaves the loop.

    `LabelLoop` is the reference definition of the loop; `Labeler.CallGemini`
    runs it against the service. */
module Labeler {
  import opened Text
  import opened Service

  const MaxAttempts: nat := 5
  const EmptyDelay: nat := 10
  const QuotaDelay: nat := 60
  const ExcerptLength: nat := 4000
  const LabelCount: nat := 3

  /** The key the script configures once, at import time. */
  const ApiKey: string := "GENAI_API_KEY"

  /** The part of the text the prompt embeds: text[:4000]. */
  function Excerpt(text: string): (excerpt: string)
    ensures excerpt <= text
    ensures |excerpt| == if |text| <= ExcerptLength then |text| else ExcerptLength
  {
    Take(text, ExcerptLength)
  }

  /** re.sub(r"```json|```", "", text).strip() */
  function Clean(text: string): string {
    Strip(StripFences(text))
  }

  /** An answer without backticks is only trimmed. */
  lemma CleanWithoutBackticks(text: string)
    requires forall i :: 0 <= i < |text| ==> text[i] != '`'
    ensures Clean(text) == Strip(text)
  {
    StripFencesNoBacktick(text);
  }

  /** What json.loads makes of the cleaned answer: a list (of its elements,
      each as text), some other JSON value, or a decoding error. */
  datatype Parsed = NotJson | List(items: seq<string>) | OtherValue

  /** What the body of one attempt makes of a reply. */
  datatype Step =
    | Accept(labels: seq<string>)  // a list of exactly three: returned
    | Empty                        // no response, or blank text: sleep 10, next attempt
    | Unusable                     // not JSON, not a list, or not three long: next attempt
    | QuotaExceeded                // "429" in str(e): sleep 60, next attempt
    | Blocked                      // a safety block: return None
    | Failed                       // any other error: break

  /** The except clause: "429" first, then the two safety markers. */
  function ErrorStep(e: ServiceError): Step {
    if Contains(e.message, "429") then QuotaExceeded
    else if Contains(e.message, "finish_reason is 3") || Contains(e.message, "safety_ratings") then Blocked
    else Failed
  }

  /** The try block for one reply, with `parse` standing for json.loads. */
  function Assess(r: Reply, parse: string -> Parsed): Step {
    match r
    case NoResponse => Empty
    case Answer(text) =>
      if Strip(text) == [] then Empty
      else (match parse(Clean(text))
            case List(items) => if |items| == LabelCount then Accept(items) else Unusable
            case _ => Unusable)
    case Raised(e) => ErrorStep(e)
    case Unreadable(e) => if e.kind == AttributeError then Empty else ErrorStep(e)
  }

  /** A response whose .text raises AttributeError has, to hasattr, no
      text: it is an empty response, slept on and retried. Any other
      exception from reading .text reaches the except clause. */
  lemma AssessUnreadable(e: ServiceError, parse: string -> Parsed)
    ensures e.kind == AttributeError ==> Assess(Unreadable(e), parse) == Empty
    ensures e.kind != AttributeError ==> Assess(Unreadable(e), parse) == Assess(Raised(e), parse)
  {
  }

  /** The step taken on every reply of an oracle. */
  function Steps(reply: nat -> Reply, parse: string -> Parsed): nat -> Step {
    (n: nat) => Assess(reply(n), parse)
  }

  /** A blank answer is empty however it would parse. */
  lemma AssessBlank(text: string, parse: string -> Parsed)
    requires Strip(text) == []
    ensures Assess(Answer(text), parse) == Empty
  {
  }

  /** A list is accepted exactly when it has three elements, and then as it
      is. */
  lemma AssessAnswer(text: string, parse: string -> Parsed)
    ensures var step := Assess(Answer(text), parse);
      step.Accept? <==> Strip(text) != [] && parse(Clean(text)).List? && |parse(Clean(text)).items| == LabelCount
    ensures var step := Assess(Answer(text), parse);
      step.Accept? ==> step.labels == parse(Clean(text)).items
  {
  }

  /** A message with "429" is a rate limit even when it also reports a
      safety block. */
  lemma QuotaFirst(e: ServiceError)
    requires Contains(e.message, "429")
    ensures ErrorStep(e) == QuotaExceeded
  {
  }

  /** How the loop left: by a return statement inside it, or past its end
      (after a break or the fifth attempt), where the function prints and
      returns None. */
  datatype Exit = Returned | AfterLoop

  /** What one call of call_gemini_api returns, how it leaves the loop, the
      calls and sleeps it makes, and how many calls that is. */
  datatype LabelOutcome = LabelOutcome(labels: Option<seq<string>>, exit: Exit, events: seq<Event>, calls: nat)

  /** The sleep that follows a step before the next attempt. */
  function Delay(step: Step): seq<Event> {
    match step
    case Empty => [Sleep(EmptyDelay)]
    case QuotaExceeded => [Sleep(QuotaDelay)]
    case _ => []
  }

  /** The delay is sleeps only. */
  lemma DelayIsSleep(step: Step)
    ensures Prompts(Delay(step)) == [] && KeysUsed(Delay(step)) == []
  {
  }

  /** One more call, made before the rest of the loop. */
  function Continued(before: seq<Event>, rest: LabelOutcome): LabelOutcome {
    LabelOutcome(rest.labels, rest.exit, before + rest.events, rest.calls + 1)
  }

  /** The steps that let the loop go on to the next attempt. */
  predicate Retries(step: Step) {
    step.Empty? || step.Unusable? || step.QuotaExceeded?
  }

  /** The for loop of call_gemini_api from attempt `attempt`, with the
      service at call `served`; the prompt carries `excerpt`. */
  function LabelLoop(step: nat -> Step, excerpt: string, served: nat, attempt: nat): LabelOutcome
    decreases MaxAttempts - attempt
  {
    if attempt >= MaxAttempts then LabelOutcome(None, AfterLoop, [], 0)
    else
      var call := Request(ApiKey, excerpt);
      var s := step(served);
      if Retries(s) then Continued([call] + Delay(s), LabelLoop(step, excerpt, served + 1, attempt + 1))
      else LabelOutcome(if s.Accept? then Some(s.labels) else None,  // return labels / return None
                        if s.Failed? then AfterLoop else Returned,    // break
                        [call], 1)
  }

  /** call_gemini_api(text) */
  function Label(step: nat -> Step, text: string, served: nat): LabelOutcome {
    LabelLoop(step, Excerpt(text), served, 0)
  }

  /** A step that ends the loop ends it after that one request. */
  lemma LabelStops(step: nat -> Step, excerpt: string, served: nat, attempt: nat)
    requires attempt < MaxAttempts && !Retries(step(served))
    ensures var o := LabelLoop(step, excerpt, served, attempt);
      && o.events == [Request(ApiKey, excerpt)] && o.calls == 1
      && o.labels == (if step(served).Accept? then Some(step(served).labels) else None)
      && o.exit == (if step(served).Failed? then AfterLoop else Returned)
  {
  }

  /** An empty response, an unusable answer and a rate limit each use up
      one attempt, after the sleep they call for. */
  lemma LabelRetries(step: nat -> Step, excerpt: string, served: nat, attempt: nat)
    requires attempt < MaxAttempts && Retries(step(served))
    ensures LabelLoop(step, excerpt, served, attempt)
      == Continued([Request(ApiKey, excerpt)] + Delay(step(served)),
                   LabelLoop(step, excerpt, served + 1, attempt + 1))
  {
  }

  /** A request for the excerpt prompts with it. */
  lemma PromptsOne(excerpt: string)
    ensures Prompts([Request(ApiKey, excerpt)]) == [excerpt]
  {
    assert [Request(ApiKey, excerpt)][1..] == [];
  }

  /** A retried attempt adds one prompt, the excerpt, before the rest. */
  lemma PromptsRetry(excerpt: string, s: Step, rest: seq<Event>)
    ensures Prompts([Request(ApiKey, excerpt)] + Delay(s) + rest) == [excerpt] + Prompts(rest)
  {
    var call := [Request(ApiKey, excerpt)];
    PromptsAppend(call + Delay(s), rest);
    PromptsAppend(call, Delay(s));
    DelayIsSleep(s);
    PromptsOne(excerpt);
  }

  /** A retried attempt keeps the prompts one copy of the excerpt per call. */
  lemma CallsContinued(excerpt: string, s: Step, rest: LabelOutcome, left: nat)
    requires Prompts(rest.events) == Copies(excerpt, rest.calls) && rest.calls <= left
    ensures var o := Continued([Request(ApiKey, excerpt)] + Delay(s), rest);
      Prompts(o.events) == Copies(excerpt, o.calls) && o.calls <= left + 1
  {
    PromptsRetry(excerpt, s, rest.events);
  }

  /** At most five calls, each one request prompted with the excerpt. */
  lemma {:induction false} LabelCalls(step: nat -> Step, excerpt: string, served: nat, attempt: nat)
    ensures var o := LabelLoop(step, excerpt, served, attempt);
      && Prompts(o.events) == Copies(excerpt, o.calls)
      && o.calls == |Prompts(o.events)|
      && o.calls <= (if attempt < MaxAttempts then MaxAttempts - attempt else 0)
    decreases MaxAttempts - attempt
  {
    if attempt < MaxAttempts && Retries(step(served)) {
      LabelRetries(step, excerpt, served, attempt);
      LabelCalls(step, excerpt, served + 1, attempt + 1);
      CallsContinued(excerpt, step(served), LabelLoop(step, excerpt, served + 1, attempt + 1),
                     MaxAttempts - attempt - 1);
    } else if attempt < MaxAttempts {
      LabelStops(step, excerpt, served, attempt);
      PromptsOne(excerpt);
      assert Copies(excerpt, 1) == [excerpt] + Copies(excerpt, 0);
    }
  }

  /** Every request sends the excerpt: the prompt embeds text[:4000] and
      nothing else of the paper. */
  lemma LabelPrompts(step: nat -> Step, excerpt: string, served: nat, attempt: nat)
    ensures Only(Prompts(LabelLoop(step, excerpt, served, attempt).events), excerpt)
  {
    LabelCalls(step, excerpt, served, attempt);
    CopiesOnly(excerpt, LabelLoop(step, excerpt, served, attempt).calls);
  }

  /** Labels, or None from inside the loop, come from the step of the last
      of the `o.calls` calls made from call `served`. */
  ghost predicate EndsOnLastStep(step: nat -> Step, served: nat, o: LabelOutcome) {
    && (o.labels.Some? ==>
          o.exit == Returned && o.calls >= 1 && step(served + o.calls - 1) == Accept(o.labels.value))
    && (o.labels.None? && o.exit == Returned ==>
          o.calls >= 1 && step(served + o.calls - 1) == Blocked)
  }

  /** A retried attempt before the rest keeps the rest's last step last. */
  lemma LastAfterRetry(step: nat -> Step, served: nat, before: seq<Event>, rest: LabelOutcome)
    requires EndsOnLastStep(step, served + 1, rest)
    ensures EndsOnLastStep(step, served, Continued(before, rest))
  {
    assert served + (rest.calls + 1) - 1 == (served + 1) + rest.calls - 1;
  }

  /** The loop returns labels, or None from inside the loop, only on the
      step of its last call. */
  lemma {:induction false} LabelLast(step: nat -> Step, excerpt: string, served: nat, attempt: nat)
    ensures EndsOnLastStep(step, served, LabelLoop(step, excerpt, served, attempt))
    decreases MaxAttempts - attempt
  {
    if attempt < MaxAttempts && Retries(step(served)) {
      LabelRetries(step, excerpt, served, attempt);
      LabelLast(step, excerpt, served + 1, attempt + 1);
      LastAfterRetry(step, served, [Request(ApiKey, excerpt)] + Delay(step(served)),
                     LabelLoop(step, excerpt, served + 1, attempt + 1));
    } else if attempt < MaxAttempts {
      LabelStops(step, excerpt, served, attempt);
    }
  }

  /** A reply is accepted only as an answer whose cleaned text decodes to a
      list of three. */
  lemma AcceptedAnswer(r: Reply, parse: string -> Parsed)
    requires Assess(r, parse).Accept?
    ensures r.Answer? && parse(Clean(r.text)) == List(Assess(r, parse).labels)
    ensures |Assess(r, parse).labels| == LabelCount
  {
    if r.Answer? {
      AssessAnswer(r.text, parse);
    }
  }

  /** Every accepted step comes from an answer whose cleaned text decodes
      to a list of three: labels, as the step carries them. */
  ghost predicate FromAnswers(step: nat -> Step, reply: nat -> Reply, parse: string -> Parsed) {
    forall n: nat :: step(n).Accept? ==>
      && reply(n).Answer? && parse(Clean(reply(n).text)) == List(step(n).labels)
      && |step(n).labels| == LabelCount
  }

  lemma StepsFromAnswers(reply: nat -> Reply, parse: string -> Parsed)
    ensures FromAnswers(Steps(reply, parse), reply, parse)
  {
    forall n: nat | Steps(reply, parse)(n).Accept?
      ensures reply(n).Answer? && parse(Clean(reply(n).text)) == List(Steps(reply, parse)(n).labels)
      ensures |Steps(reply, parse)(n).labels| == LabelCount
    {
      AcceptedAnswer(reply(n), parse);
    }
  }

  /** The same for any steps that come from the replies. */
  lemma LabelSourceFor(step: nat -> Step, reply: nat -> Reply, parse: string -> Parsed, excerpt: string,
                       served: nat, attempt: nat)
    requires FromAnswers(step, reply, parse)
    ensures var o := LabelLoop(step, excerpt, served, attempt);
      && (o.labels.Some? ==>
            && o.exit == Returned && o.calls >= 1
            && var last := reply(served + o.calls - 1);
            && last.Answer? && parse(Clean(last.text)) == List(o.labels.value)
            && |o.labels.value| == LabelCount)
      && (o.labels.None? && o.exit == Returned ==>
            o.calls >= 1 && step(served + o.calls - 1) == Blocked)
  {
    LabelLast(step, excerpt, served, attempt);
  }

  /** Labels are returned only as a list of exactly three, decoded from the
      answer to the last call, neither truncated nor padded; a return
      without labels is a safety block, and otherwise the loop ran past its
      end. */
  lemma LabelSource(reply: nat -> Reply, parse: string -> Parsed, excerpt: string,
                    served: nat, attempt: nat)
    ensures var o := LabelLoop(Steps(reply, parse), excerpt, served, attempt);
      && (o.labels.Some? ==>
            && o.exit == Returned && o.calls >= 1
            && var last := reply(served + o.calls - 1);
            && last.Answer? && parse(Clean(last.text)) == List(o.labels.value)
            && |o.labels.value| == LabelCount)
      && (o.labels.None? && o.exit == Returned ==>
            o.calls >= 1 && Steps(reply, parse)(served + o.calls - 1) == Blocked)
  {
    StepsFromAnswers(reply, parse);
    LabelSourceFor(Steps(reply, parse), reply, parse, excerpt, served, attempt);
  }

  /** call_gemini_api returns None or a list of exactly three labels. */
  lemma LabelThree(reply: nat -> Reply, parse: string -> Parsed, text: string, served: nat)
    ensures var o := Label(Steps(reply, parse), text, served);
      o.labels.None? || |o.labels.value| == LabelCount
  {
    LabelSource(reply, parse, Excerpt(text), served, 0);
  }

  /** The steps numbered from .. from + count - 1 all let the loop go on. */
  predicate AllRetried(step: nat -> Step, from: nat, count: nat) {
    forall j :: from <= j < from + count ==> Retries(step(j))
  }

  /** How many of the steps numbered from .. from + count - 1 are `s`. */
  function CountStep(step: nat -> Step, from: nat, count: nat, s: Step): nat
    decreases count
  {
    if count == 0 then 0 else (if step(from) == s then 1 else 0) + CountStep(step, from + 1, count - 1, s)
  }

  /** A retried attempt adds its request, and one sleep of ten seconds after
      an empty response or of sixty after a rate limit. */
  lemma SleepsAfterRetry(excerpt: string, s: Step, rest: LabelOutcome)
    requires Retries(s)
    ensures var o := Continued([Request(ApiKey, excerpt)] + Delay(s), rest);
      && CountSleeps(o.events, EmptyDelay) == CountSleeps(rest.events, EmptyDelay) + (if s == Empty then 1 else 0)
      && CountSleeps(o.events, QuotaDelay) == CountSleeps(rest.events, QuotaDelay) + (if s == QuotaExceeded then 1 else 0)
      && |o.events| == |rest.events| + 1 + (if s == Empty || s == QuotaExceeded then 1 else 0)
  {
    var before := [Request(ApiKey, excerpt)] + Delay(s);
    CountSleepsAppend(before, rest.events, EmptyDelay);
    CountSleepsAppend(before, rest.events, QuotaDelay);
    if s.Unusable? {
      assert before == [Request(ApiKey, excerpt)] && before[1..] == [];
    } else {
      assert before[1..][1..] == [];
    }
  }

  /** When every reply calls for a retry, in any mix of empty responses,
      unusable answers and rate limits, the call uses all five attempts and
      returns no labels; it sleeps ten seconds once per empty response and
      sixty once per rate limit, and makes no other sleep. */
  lemma {:induction false} LabelExhausted(step: nat -> Step, excerpt: string, served: nat, attempt: nat)
    requires attempt <= MaxAttempts
    requires AllRetried(step, served, MaxAttempts - attempt)
    ensures var o := LabelLoop(step, excerpt, served, attempt);
      var empties := CountStep(step, served, MaxAttempts - attempt, Empty);
      var quotas := CountStep(step, served, MaxAttempts - attempt, QuotaExceeded);
      && o.labels.None? && o.exit == AfterLoop
      && o.calls == MaxAttempts - attempt
      && CountSleeps(o.events, EmptyDelay) == empties
      && CountSleeps(o.events, QuotaDelay) == quotas
      && |o.events| == o.calls + empties + quotas
    decreases MaxAttempts - attempt
  {
    if attempt < MaxAttempts {
      assert Retries(step(served));
      LabelRetries(step, excerpt, served, attempt);
      LabelExhausted(step, excerpt, served + 1, attempt + 1);
      SleepsAfterRetry(excerpt, step(served), LabelLoop(step, excerpt, served + 1, attempt + 1));
      assert MaxAttempts - (attempt + 1) == MaxAttempts - attempt - 1;
    }
  }

  /** The replies numbered from .. from + count - 1 all call for the same
      step. */
  predicate AllSteps(step: nat -> Step, from: nat, count: nat, s: Step) {
    forall j :: from <= j < from + count ==> step(j) == s
  }

  /** A retried attempt whose step sleeps `seconds` adds one such sleep. */
  lemma SleepAfterRetry(excerpt: string, s: Step, seconds: nat, rest: LabelOutcome)
    requires (s.Empty? && seconds == EmptyDelay) || (s.QuotaExceeded? && seconds == QuotaDelay)
    ensures CountSleeps(Continued([Request(ApiKey, excerpt)] + Delay(s), rest).events, seconds)
         == CountSleeps(rest.events, seconds) + 1
  {
    var before := [Request(ApiKey, excerpt)] + Delay(s);
    CountSleepsAppend(before, rest.events, seconds);
    assert before == [Request(ApiKey, excerpt), Sleep(seconds)];
    assert before[1..][1..] == [];
  }

  /** ... and the sleeps are all of the delay that step calls for: five
      one-minute waits when every reply is a rate limit, five ten-second
      waits when every response is empty. */
  lemma {:induction false} ExhaustedSleeps(step: nat -> Step, excerpt: string, served: nat, attempt: nat, s: Step)
    requires attempt <= MaxAttempts && (s.Empty? || s.QuotaExceeded?)
    requires AllSteps(step, served, MaxAttempts - attempt, s)
    ensures var o := LabelLoop(step, excerpt, served, attempt);
      CountSleeps(o.events, if s.Empty? then EmptyDelay else QuotaDelay) == MaxAttempts - attempt
    decreases MaxAttempts - attempt
  {
    if attempt < MaxAttempts {
      assert step(served) == s;
      LabelRetries(step, excerpt, served, attempt);
      ExhaustedSleeps(step, excerpt, served + 1, attempt + 1, s);
      SleepAfterRetry(excerpt, s, if s.Empty? then EmptyDelay else QuotaDelay,
                      LabelLoop(step, excerpt, served + 1, attempt + 1));
    }
  }

  /** The corrected end of the function: past the loop it returns None. */
  lemma {:induction false} AfterLoopNoLabels(step: nat -> Step, excerpt: string, served: nat, attempt: nat)
    ensures var o := LabelLoop(step, excerpt, served, attempt);
      (o.exit == AfterLoop ==> o.labels.None?) && (o.labels.Some? ==> o.exit == Returned)
    decreases MaxAttempts - attempt
  {
    if attempt < MaxAttempts && Retries(step(served)) {
      LabelRetries(step, excerpt, served, attempt);
      AfterLoopNoLabels(step, excerpt, served + 1, attempt + 1);
    }
  }

  // The function as written: the print after the loop reads `response`.

  /** The value of the local `response` after `count` more calls from call
      `served`: generate_content either raised, leaving it as it was, or
      assigned it. */
  function ResponseAfter(reply: nat -> Reply, served: nat, count: nat, response: Option<Reply>): Option<Reply>
    decreases count
  {
    if count == 0 then response
    else ResponseAfter(reply, served + 1, count - 1, if reply(served).Raised? then response else Some(reply(served)))
  }

  datatype Ending = Labelled(labels: seq<string>) | NoLabels | Crash

  /** print(f"... {response.text if response else 'No Response'}"): an
      unbound `response` raises UnboundLocalError, and a response whose
      .text raised raises again. */
  function Epilogue(response: Option<Reply>): Ending {
    match response
    case None => Crash
    case Some(Unreadable(_)) => Crash
    case Some(_) => NoLabels
  }

  /** call_gemini_api as written, over the replies themselves. */
  function CallGeminiAsWritten(reply: nat -> Reply, parse: string -> Parsed, text: string, served: nat): Ending {
    var o := Label(Steps(reply, parse), text, served);
    if o.exit == Returned then (if o.labels.Some? then Labelled(o.labels.value) else NoLabels)
    else Epilogue(ResponseAfter(reply, served, o.calls, None))
  }

  /** A first call that raises an error other than a rate limit or a
      safety block crashes the function as written, where the corrected one
      returns None. */
  lemma FirstErrorCrashes(reply: nat -> Reply, parse: string -> Parsed, text: string, served: nat)
    requires reply(served).Raised? && ErrorStep(reply(served).error) == Failed
    ensures CallGeminiAsWritten(reply, parse, text, served) == Crash
    ensures Label(Steps(reply, parse), text, served).labels == None
  {
    assert Steps(reply, parse)(served) == Failed;
    LabelStops(Steps(reply, parse), Excerpt(text), served, 0);
    var o := Label(Steps(reply, parse), text, served);
    assert ResponseAfter(reply, served, o.calls, None) == ResponseAfter(reply, served + 1, 0, None);
  }

  /** An error whose message is "500" is neither a rate limit nor a safety
      block, so it is such a first error. */
  lemma Error500Fails()
    ensures ErrorStep(ServiceError(OtherError, "500", StrArg("500"))) == Failed
  {
    var e := ServiceError(OtherError, "500", StrArg("500"));
    assert !Contains(e.message, "429") by { NoSubstring(e.message, "429"); }
    assert !Contains(e.message, "finish_reason is 3") by { NoSubstring(e.message, "finish_reason is 3"); }
    assert !Contains(e.message, "safety_ratings") by { NoSubstring(e.message, "safety_ratings"); }
  }

  /** A loop that has already made `calls` calls and did `events`, followed
      by the rest of the loop. */
  function Resume(events: seq<Event>, calls: nat, rest: LabelOutcome): LabelOutcome {
    LabelOutcome(rest.labels, rest.exit, events + rest.events, calls + rest.calls)
  }

  lemma ResumeContinued(events: seq<Event>, calls: nat, before: seq<Event>, rest: LabelOutcome)
    ensures Resume(events, calls, Continued(before, rest)) == Resume(events + before, calls + 1, rest)
  {
    assert events + (before + rest.events) == (events + before) + rest.events;
  }

  /** An attempt whose step ends the loop completes the whole call: its
      one request is the last event. */
  lemma ResumeStops(step: nat -> Step, excerpt: string, events: seq<Event>, served: nat, attempt: nat)
    requires attempt < MaxAttempts && !Retries(step(served))
    ensures var s := step(served);
      Resume(events, attempt, LabelLoop(step, excerpt, served, attempt))
        == LabelOutcome(if s.Accept? then Some(s.labels) else None,
                        if s.Failed? then AfterLoop else Returned,
                        events + [Request(ApiKey, excerpt)], attempt + 1)
  {
    LabelStops(step, excerpt, served, attempt);
  }

  /** An attempt whose step lets the loop go on adds its request and its
      sleep to what has been done. */
  lemma ResumeRetries(step: nat -> Step, excerpt: string, events: seq<Event>, served: nat, attempt: nat)
    requires attempt < MaxAttempts && Retries(step(served))
    ensures Resume(events, attempt, LabelLoop(step, excerpt, served, attempt))
         == Resume(events + [Request(ApiKey, excerpt)] + Delay(step(served)), attempt + 1,
                   LabelLoop(step, excerpt, served + 1, attempt + 1))
  {
    var before := [Request(ApiKey, excerpt)] + Delay(step(served));
    LabelRetries(step, excerpt, served, attempt);
    ResumeContinued(events, attempt, before, LabelLoop(step, excerpt, served + 1, attempt + 1));
    AppendRegroup(events, [Request(ApiKey, excerpt)], Delay(step(served)));
  }

  /** The service whose client is configured with the script's key. */
  class Labeler {
    const env: Environment
    const parse: string -> Parsed      // json.loads
    ghost const steps: nat -> Step     // what the loop body makes of each reply

    constructor (env: Environment, parse: string -> Parsed)
      ensures this.env == env && this.parse == parse
      ensures steps == Steps(env.reply, parse) && Linked()
    {
      this.env := env;
      this.parse := parse;
      steps := Steps(env.reply, parse);
    }

    /** `steps` is the try block applied to the service's replies; the fact
        is used where a reply has been received. */
    ghost predicate Linked() {
      forall k {:trigger ReplyTo(env.reply, k)} :: steps(k) == Assess(ReplyTo(env.reply, k), parse)
    }

    /** The state of the for loop before attempt `attempt`: every attempt
        so far was one call, and `whole` (what the loop does from the start)
        is the trace so far followed by what the loop has yet to do. */
    ghost predicate LoopInv(excerpt: string, whole: LabelOutcome, n0: nat, attempt: int)
      reads this, env
    {
      && Linked() && 0 <= attempt && env.served == n0 + attempt
      && whole == Resume(env.trace, attempt, LabelLoop(steps, excerpt, n0 + attempt, attempt))
    }

    /** call_gemini_api(text) */
    method CallGemini(text: string) returns (labels: Option<seq<string>>)
      requires Linked()
      modifies env
      ensures var o := Label(steps, text, old(env.served));
        && labels == o.labels
        && env.served == old(env.served) + o.calls
        && env.trace == old(env.trace) + o.events
    {
      var excerpt := Take(text, ExcerptLength);
      ghost var n0 := env.served;
      ghost var whole := Resume(env.trace, 0, LabelLoop(steps, excerpt, n0, 0));
      for attempt := 0 to MaxAttempts
        invariant LoopInv(excerpt, whole, n0, attempt)
      {
        var flow := Attempt(excerpt, attempt, whole, n0);
        if flow.Return? {
          return flow.labels;
        } else if flow.Break? {
          break;
        }
      }
      assert env.trace + [] == env.trace;
      return None;
    }

    /** The statement that ends one attempt: `continue` (or the end of the
        body), `return`, or `break`. */
    method Attempt(excerpt: string, attempt: int, ghost whole: LabelOutcome, ghost n0: nat)
      returns (flow: Flow)
      requires attempt < MaxAttempts && LoopInv(excerpt, whole, n0, attempt)
      modifies env
      ensures flow.Next? ==> LoopInv(excerpt, whole, n0, attempt + 1)
      ensures flow.Return? ==> whole == LabelOutcome(flow.labels, Returned, env.trace, attempt + 1)
      ensures flow.Break? ==> whole == LabelOutcome(None, AfterLoop, env.trace, attempt + 1)
      ensures !flow.Next? ==> env.served == n0 + attempt + 1
    {
      ghost var n, t := env.served, env.trace;
      var step := Ask(excerpt);
      if !Retries(step) {
        ResumeStops(steps, excerpt, t, n, attempt);
        flow := if step.Accept? then Return(Some(step.labels))  // return labels
                else if step.Blocked? then Return(None)          // return None
                else Break;
        return;
      }
      ResumeRetries(steps, excerpt, t, n, attempt);
      Wait(step);
      return Next;
    }

    /** The sleep before the next attempt: ten seconds after an empty
        response, sixty after a rate limit. */
    method Wait(step: Step)
      modifies env
      ensures env.served == old(env.served)
      ensures env.trace == old(env.trace) + Delay(step)
    {
      if step.Empty? {
        env.Sleep(EmptyDelay);
      } else if step.QuotaExceeded? {
        env.Sleep(QuotaDelay);
      } else {
        assert env.trace + [] == env.trace;
      }
    }

    /** model.generate_content(prompt), and what the try block makes of
        the reply. */
    method Ask(excerpt: string) returns (step: Step)
      requires Linked()
      modifies env
      ensures step == steps(old(env.served))
      ensures env.served == old(env.served) + 1
      ensures env.trace == old(env.trace) + [Request(ApiKey, excerpt)]
    {
      var response := env.GenerateContent(ApiKey, excerpt);
      step := Examine(response);
    }

    /** The try block and its except clause, for one reply. */
    method Examine(response: Reply) returns (step: Step)
      ensures step == Assess(response, parse)
      ensures step.Accept? ==> |step.labels| == LabelCount
    {
      // generate_content raised, or reading .text raised something hasattr
      // lets through: the except clause
      if response.Raised? || (response.Unreadable? && response.error.kind != AttributeError) {
        var message := response.error.message;
        if Contains(message, "429") {
          return QuotaExceeded;
        } else if Contains(message, "finish_reason is 3") || Contains(message, "safety_ratings") {
          return Blocked;
        }
        return Failed;
      }
      // not response or not hasattr(response, "text") or not response.text.strip()
      if response.NoResponse? || response.Unreadable? || Strip(response.text) == [] {
        return Empty;
      }
      var cleaned := Strip(StripFences(response.text));
      var labels := parse(cleaned);
      if labels.List? && |labels.items| == LabelCount {
        return Accept(labels.items);
      }
      return Unusable;
    }
  }

  datatype Flow = Next | Return(labels: Option<seq<string>>) | Break
}
