/** categorize_pdf_with_gemini of annotator.py: one category for one
    document, chosen by the remote model from a closed vocabulary, with the
    key pool rotated on every physical call, a retry budget of three calls
    per key, one 60-second back-off when rate limits exhaust the budget, and
    a fatal path for every other error.

    `Rotation` is the reference definition of the retry loop; the method that
    runs it against a live service and key cursor is
    `Annotator.Annotator.Categorize`. */
module Categorizer {
  import opened Text
  import opened Service

  const Labels: seq<string> := [
    "Machine Learning", "Deep Learning", "Computer Vision",
    "Natural Language Processing", "Reinforcement Learning", "Optimization",
    "Theory", "Applications", "Algorithms", "Datasets"
  ]

  /** The answers accepted from the model: the labels and "Other". */
  const Vocabulary: seq<string> := Labels + ["Other"]

  const ApiErrorDelay: nat := 60

  // The sentinel results, each distinct from every other and from the vocabulary.
  const NoText: string := "No Text Extracted"
  const Uncategorized: string := "Uncategorized"
  const ApiError: string := "API Error"
  const RetriesExhausted: string := "API Error (Rate Limit/Rotation Exhausted/Timeout)"

  /** The attempt budget of one call: len(keys) * max_retries_per_key, with
      max_retries_per_key = 3 written as a literal so that the bound stays
      linear. */
  function Limit(keys: seq<string>): nat {
    |keys| * 3
  }

  /** output.lower() is one of [label.lower() for label in LABELS + ["Other"]]. */
  predicate InVocabulary(output: string) {
    exists i :: 0 <= i < |Vocabulary| && Lower(output) == Lower(Vocabulary[i])
  }

  /** The model's answer, trimmed, when it names a category in any letter
      case; "Uncategorized" otherwise. */
  function Validate(text: string): (category: string)
    ensures InVocabulary(category) || category == Uncategorized
  {
    var output := Strip(text);
    if InVocabulary(output) then output else Uncategorized
  }

  /** Only "Deep Learning" has thirteen characters; no entry has 9, 17, 22
      or 49. */
  lemma VocabularyLengths()
    ensures forall i :: 0 <= i < |Vocabulary| ==>
      |Vocabulary[i]| in {5, 6, 8, 10, 12, 13, 15, 16, 22, 27}
      && (|Vocabulary[i]| == 13 ==> Vocabulary[i][0] == 'D')
      && (|Vocabulary[i]| == 22 ==> Vocabulary[i][0] == 'R')
  {
  }

  /** A string whose length and first letter differ from every entry's is
      not in the vocabulary. */
  lemma OutsideByShape(x: string)
    requires |x| !in {5, 6, 8, 10, 12, 15, 16, 27}
    requires |x| == 13 ==> LowerChar(x[0]) != 'd'
    requires |x| == 22 ==> LowerChar(x[0]) != 'r'
    ensures !InVocabulary(x)
  {
    VocabularyLengths();
    forall i | 0 <= i < |Vocabulary| ensures Lower(x) != Lower(Vocabulary[i]) {
      var v := Vocabulary[i];
      if |v| == |x| {
        assert Lower(x)[0] == LowerChar(x[0]) && Lower(v)[0] == LowerChar(v[0]);
      }
    }
  }

  /** No sentinel can be mistaken for a category. */
  lemma SentinelsOutsideVocabulary()
    ensures !InVocabulary(NoText) && !InVocabulary(Uncategorized)
    ensures !InVocabulary(ApiError) && !InVocabulary(RetriesExhausted)
  {
    OutsideByShape(NoText);
    OutsideByShape(Uncategorized);
    OutsideByShape(ApiError);
    OutsideByShape(RetriesExhausted);
  }

  /** The answer is kept, case and all, exactly when it matches the
      vocabulary; otherwise the sentinel is returned, never the answer. */
  lemma ValidateIff(text: string)
    ensures Validate(text) == Uncategorized <==> !InVocabulary(Strip(text))
    ensures InVocabulary(Strip(text)) ==> Validate(text) == Strip(text)
  {
    SentinelsOutsideVocabulary();
  }

  /** How the except clause dispatches on an exception: "429" in str(e) is
      looked at first, then "deadline" in the lower-cased first argument (or in
      str(e) when there are no arguments); anything else is fatal. */
  datatype Dispatch = RateLimited | DeadlineExceeded | Fatal

  /** The dispatch with the deadline test read as `str(e.args[0]).lower()`,
      which converts the first argument to text before lower-casing it. The
      test as written, `str(e.args[0].lower())`, lower-cases first; it is
      `ClassifyAsWritten`. */
  function Classify(e: ServiceError): Dispatch {
    if Contains(e.message, "429") then RateLimited
    else if (match e.firstArg
             case StrArg(arg) => Contains(Lower(arg), "deadline")
             case OtherArg(shown) => Contains(Lower(shown), "deadline")
             case NoArgs => Contains(e.message, "deadline"))
    then DeadlineExceeded
    else Fatal
  }

  /** The except clause as written. A first argument that is not a string
      has no lower() method, so the deadline test raises AttributeError
      inside the except clause (None): nothing in the script catches it, and
      the run stops. */
  function ClassifyAsWritten(e: ServiceError): (d: Option<Dispatch>)
    ensures d.None? <==> e.firstArg.OtherArg? && !Contains(e.message, "429")
  {
    if Contains(e.message, "429") then Some(RateLimited)
    else match e.firstArg
      case OtherArg(_) => None
      case StrArg(arg) => Some(if Contains(Lower(arg), "deadline") then DeadlineExceeded else Fatal)
      case NoArgs => Some(if Contains(e.message, "deadline") then DeadlineExceeded else Fatal)
  }

  /** Wherever the except clause as written does not crash, the corrected
      dispatch gives what it gives; and the corrected one gives a dispatch
      for every exception. */
  lemma ClassifyCorrects(e: ServiceError)
    ensures ClassifyAsWritten(e).Some? ==> ClassifyAsWritten(e).value == Classify(e)
    ensures e.firstArg.OtherArg? && !Contains(e.message, "429") ==>
      (Classify(e) == DeadlineExceeded <==> Contains(Lower(e.firstArg.shown), "deadline"))
  {
  }

  /** Exception(500), whose only argument is the int 500: as written the
      except clause crashes; corrected, the error is fatal and the document
      gets "API Error". */
  lemma IntArgCrashes()
    ensures ClassifyAsWritten(ServiceError(OtherError, "500", OtherArg("500"))) == None
    ensures Classify(ServiceError(OtherError, "500", OtherArg("500"))) == Fatal
  {
    NoSubstring("500", "429");
    NoSubstring(Lower("500"), "deadline");
  }

  /** A reply that raised inside the try block (either generate_content or
      reading .text). */
  predicate IsError(r: Reply) {
    r.Raised? || r.Unreadable?
  }

  predicate IsRateLimit(r: Reply) {
    IsError(r) && Classify(r.error) == RateLimited
  }

  predicate IsTransient(r: Reply) {
    IsError(r) && Classify(r.error) != Fatal
  }

  /** The replies numbered from .. from + count - 1 are all counted errors. */
  predicate AllTransient(reply: nat -> Reply, from: nat, count: nat) {
    forall j :: from <= j < from + count ==> IsTransient(reply(j))
  }

  /** A message mentioning both a 429 and a deadline counts as a rate limit. */
  lemma RateLimitFirst(e: ServiceError)
    requires Contains(e.message, "429")
    ensures Classify(e) == RateLimited
  {
  }

  /** What the body of one loop iteration makes of a reply: the loop ends
      with a category, or the attempt counts and the loop goes on (noting
      whether the error was a rate limit). */
  datatype Verdict = Done(category: string) | Retry(rateLimited: bool)

  /** The except clause: "429" is retried as a rate limit, a deadline is
      retried, and anything else is fatal and gives "API Error". */
  function OnError(e: ServiceError): Verdict {
    match Classify(e)
    case RateLimited => Retry(true)
    case DeadlineExceeded => Retry(false)
    case Fatal => Done(ApiError)
  }

  /** The try block and its except clause, for one reply: an answer is
      validated, a missing response is an API error. */
  function Decide(r: Reply): Verdict {
    match r
    case Answer(text) => Done(Validate(text))
    case NoResponse => Done(ApiError)
    case Raised(e) => OnError(e)
    case Unreadable(e) => OnError(e)
  }

  /** The verdict on every reply of an oracle. */
  function Verdicts(reply: nat -> Reply): nat -> Verdict {
    (n: nat) => Decide(reply(n))
  }

  /** A reply is retried exactly when it is a counted error, and is
      reported as a rate limit exactly when it is one. */
  lemma DecideRetries(r: Reply)
    ensures Decide(r).Retry? <==> IsTransient(r)
    ensures Decide(r).Retry? ==> (Decide(r).rateLimited <==> IsRateLimit(r))
    ensures !IsTransient(r) ==> Decide(r).category == (if r.Answer? then Validate(r.text) else ApiError)
  {
  }

  /** A category a reply can end the loop with. */
  predicate Reportable(c: string) {
    c == ApiError || c == Uncategorized || InVocabulary(c)
  }

  /** Every category the dispatch can end the loop with is a sentinel or a
      category of the vocabulary. */
  lemma DecideCategory(r: Reply)
    ensures Decide(r).Done? ==> Reportable(Decide(r).category)
  {
  }

  /** What one call of the categoriser returns, the calls and sleeps it makes,
      and how many calls that is. */
  datatype Outcome = Outcome(category: string, events: seq<Event>, calls: nat)

  /** One more call, made before the rest of the loop. */
  function AfterCall(before: seq<Event>, rest: Outcome): Outcome {
    Outcome(rest.category, before + rest.events, rest.calls + 1)
  }

  /** The sleep after a counted error: the 60-second back-off when a rate
      limit uses up the budget, nothing otherwise. The source guards the
      back-off with a flag, keys_exhausted_delay_occurred, but the flag can
      only be set once the budget is spent, and then the loop ends, so the
      guard never decides anything. */
  function Pause(keys: seq<string>, rateLimited: bool, tried: nat): seq<Event> {
    if rateLimited && tried + 1 >= Limit(keys) then [Sleep(ApiErrorDelay)] else []
  }

  /** The while loop of categorize_pdf_with_gemini from a state in which
      `tried` attempts have counted, the key cycle stands at `cursor` and the
      service has answered `served` calls in this run; `verdict(n)` is what
      the loop body makes of the n-th reply. */
  function Rotation(keys: seq<string>, verdict: nat -> Verdict, text: string,
                    cursor: nat, served: nat, tried: nat): Outcome
    requires |keys| > 0
    decreases Limit(keys) - tried
  {
    if tried >= Limit(keys) then Outcome(RetriesExhausted, [], 0)
    else
      var call := Request(keys[cursor % |keys|], text);
      match verdict(served)
      case Done(category) => Outcome(category, [call], 1)
      case Retry(rateLimited) =>
        AfterCall([call] + Pause(keys, rateLimited, tried),
                  Rotation(keys, verdict, text, cursor + 1, served + 1, tried + 1))
  }

  /** categorize_pdf_with_gemini(text): empty text is answered at once. */
  function Categorize(keys: seq<string>, verdict: nat -> Verdict, text: string,
                      cursor: nat, served: nat): Outcome
    requires |keys| > 0
  {
    if text == [] then Outcome(NoText, [], 0)
    else Rotation(keys, verdict, text, cursor, served, 0)
  }

  /** Empty text consumes no key and makes no call. */
  lemma EmptyTextNoCall(keys: seq<string>, verdict: nat -> Verdict, cursor: nat, served: nat)
    requires |keys| > 0
    ensures Categorize(keys, verdict, [], cursor, served) == Outcome(NoText, [], 0)
  {
  }

  /** A reply that ends the loop ends it after that one request. */
  lemma StopsAtOnce(keys: seq<string>, verdict: nat -> Verdict, text: string,
                    cursor: nat, served: nat, tried: nat)
    requires |keys| > 0 && tried < Limit(keys)
    requires verdict(served).Done?
    ensures Rotation(keys, verdict, text, cursor, served, tried)
         == Outcome(verdict(served).category, [Request(keys[cursor % |keys|], text)], 1)
  {
  }

  /** A rate limit or a deadline counts the attempt and moves on to the next
      key, after the back-off sleep when this is the attempt that uses up the
      budget. */
  lemma TransientContinues(keys: seq<string>, verdict: nat -> Verdict, text: string,
                           cursor: nat, served: nat, tried: nat)
    requires |keys| > 0 && tried < Limit(keys)
    requires verdict(served).Retry?
    ensures Rotation(keys, verdict, text, cursor, served, tried)
      == AfterCall([Request(keys[cursor % |keys|], text)] + Pause(keys, verdict(served).rateLimited, tried),
                   Rotation(keys, verdict, text, cursor + 1, served + 1, tried + 1))
  {
  }

  /** Once the budget is spent the loop gives up without a call. */
  lemma Spent(keys: seq<string>, verdict: nat -> Verdict, text: string,
              cursor: nat, served: nat, tried: nat)
    requires |keys| > 0 && tried >= Limit(keys)
    ensures Rotation(keys, verdict, text, cursor, served, tried) == Outcome(RetriesExhausted, [], 0)
  {
  }

  /** The pause is sleeps only. */
  lemma PauseIsSleep(keys: seq<string>, rateLimited: bool, tried: nat)
    ensures KeysUsed(Pause(keys, rateLimited, tried)) == [] && Prompts(Pause(keys, rateLimited, tried)) == []
  {
  }

  /** One request uses its key and sends its text. */
  lemma OneRequest(key: string, text: string)
    ensures KeysUsed([Request(key, text)]) == [key] && Prompts([Request(key, text)]) == [text]
  {
    assert [Request(key, text)][1..] == [];
  }

  /** A counted attempt adds one key and one prompt before the rest. */
  lemma RetryEvents(key: string, text: string, pause: seq<Event>, rest: seq<Event>)
    requires KeysUsed(pause) == [] && Prompts(pause) == []
    ensures KeysUsed([Request(key, text)] + pause + rest) == [key] + KeysUsed(rest)
    ensures Prompts([Request(key, text)] + pause + rest) == [text] + Prompts(rest)
  {
    var call := [Request(key, text)];
    KeysUsedAppend(call + pause, rest);
    KeysUsedAppend(call, pause);
    PromptsAppend(call + pause, rest);
    PromptsAppend(call, pause);
    OneRequest(key, text);
  }

  /** A counted attempt keeps one request per call, each sending the text. */
  lemma CallsAfterCall(key: string, text: string, pause: seq<Event>, rest: Outcome, left: nat)
    requires KeysUsed(pause) == [] && Prompts(pause) == []
    requires rest.calls == |KeysUsed(rest.events)| && Prompts(rest.events) == Copies(text, rest.calls)
    requires rest.calls <= left
    ensures var o := AfterCall([Request(key, text)] + pause, rest);
      && o.calls == |KeysUsed(o.events)| && Prompts(o.events) == Copies(text, o.calls)
      && o.calls <= left + 1
  {
    RetryEvents(key, text, pause, rest.events);
  }

  /** Every loop iteration makes exactly one call, sending the whole text,
      and the budget bounds the calls. */
  lemma {:induction false} RotationCallBound(keys: seq<string>, verdict: nat -> Verdict, text: string,
                                             cursor: nat, served: nat, tried: nat)
    requires |keys| > 0
    ensures var o := Rotation(keys, verdict, text, cursor, served, tried);
      && o.calls == |KeysUsed(o.events)|
      && Prompts(o.events) == Copies(text, o.calls)
      && o.calls <= (if tried < Limit(keys) then Limit(keys) - tried else 0)
    decreases Limit(keys) - tried
  {
    var key := keys[cursor % |keys|];
    if tried < Limit(keys) && verdict(served).Retry? {
      var rateLimited := verdict(served).rateLimited;
      TransientContinues(keys, verdict, text, cursor, served, tried);
      RotationCallBound(keys, verdict, text, cursor + 1, served + 1, tried + 1);
      PauseIsSleep(keys, rateLimited, tried);
      CallsAfterCall(key, text, Pause(keys, rateLimited, tried),
                     Rotation(keys, verdict, text, cursor + 1, served + 1, tried + 1), Limit(keys) - tried - 1);
    } else if tried < Limit(keys) {
      StopsAtOnce(keys, verdict, text, cursor, served, tried);
      OneRequest(key, text);
      assert Copies(text, 1) == [text] + Copies(text, 0);
    }
  }

  /** A counted attempt takes the key at the cursor, and the rest of the
      loop goes on from the next one. */
  lemma KeysAfterCall(keys: seq<string>, cursor: nat, text: string, pause: seq<Event>, rest: Outcome)
    requires |keys| > 0 && KeysUsed(pause) == [] && Prompts(pause) == []
    requires RoundRobin(keys, cursor + 1, KeysUsed(rest.events))
    ensures RoundRobin(keys, cursor, KeysUsed(AfterCall([Request(keys[cursor % |keys|], text)] + pause, rest).events))
  {
    var key := keys[cursor % |keys|];
    RetryEvents(key, text, pause, rest.events);
    RoundRobinAppend(keys, cursor, [key], KeysUsed(rest.events));
  }

  /** Each call takes the next key of the cycle, whatever the previous
      outcome. */
  lemma {:induction false} RotationKeys(keys: seq<string>, verdict: nat -> Verdict, text: string,
                                        cursor: nat, served: nat, tried: nat)
    requires |keys| > 0
    ensures RoundRobin(keys, cursor, KeysUsed(Rotation(keys, verdict, text, cursor, served, tried).events))
    decreases Limit(keys) - tried
  {
    var key := keys[cursor % |keys|];
    if tried < Limit(keys) && verdict(served).Retry? {
      var rateLimited := verdict(served).rateLimited;
      TransientContinues(keys, verdict, text, cursor, served, tried);
      RotationKeys(keys, verdict, text, cursor + 1, served + 1, tried + 1);
      PauseIsSleep(keys, rateLimited, tried);
      KeysAfterCall(keys, cursor, text, Pause(keys, rateLimited, tried),
                    Rotation(keys, verdict, text, cursor + 1, served + 1, tried + 1));
    } else if tried < Limit(keys) {
      StopsAtOnce(keys, verdict, text, cursor, served, tried);
      OneRequest(key, text);
    }
  }

  /** Every request sends the whole text. */
  lemma RotationPrompts(keys: seq<string>, verdict: nat -> Verdict, text: string,
                        cursor: nat, served: nat, tried: nat)
    requires |keys| > 0
    ensures Only(Prompts(Rotation(keys, verdict, text, cursor, served, tried).events), text)
  {
    RotationCallBound(keys, verdict, text, cursor, served, tried);
    CopiesOnly(text, Rotation(keys, verdict, text, cursor, served, tried).calls);
  }

  /** The shape of the back-off in an outcome reached after `tried`
      attempts: every event but the sleeps is a call, there is at most one
      sleep, and a sleep is the last event of a loop that spent its budget. */
  ghost predicate BackedOff(keys: seq<string>, o: Outcome, tried: nat) {
    && |o.events| == o.calls + CountSleeps(o.events, ApiErrorDelay)
    && CountSleeps(o.events, ApiErrorDelay) <= 1
    && (CountSleeps(o.events, ApiErrorDelay) == 1 ==>
          && o.category == RetriesExhausted
          && o.calls >= 1 && tried + o.calls == Limit(keys)
          && o.events[|o.events| - 1] == Sleep(ApiErrorDelay))
  }

  /** A counted attempt keeps the shape of the back-off. */
  lemma BackoffAfterCall(keys: seq<string>, key: string, text: string, rateLimited: bool,
                         tried: nat, rest: Outcome)
    requires tried < Limit(keys)
    requires tried + 1 >= Limit(keys) ==> rest == Outcome(RetriesExhausted, [], 0)
    requires BackedOff(keys, rest, tried + 1)
    ensures BackedOff(keys, AfterCall([Request(key, text)] + Pause(keys, rateLimited, tried), rest), tried)
  {
    var call := Request(key, text);
    var pause := Pause(keys, rateLimited, tried);
    var before := [call] + pause;
    var o := AfterCall(before, rest);
    CountSleepsAppend(before, rest.events, ApiErrorDelay);
    CountSleepsAppend([call], pause, ApiErrorDelay);
    assert CountSleeps([call], ApiErrorDelay) == 0 by { assert [call][1..] == []; }
    if pause != [] {
      // the budget is spent: the rest of the loop does nothing
      assert CountSleeps(pause, ApiErrorDelay) == 1 by { assert pause[1..] == []; }
      assert o.events == [call, Sleep(ApiErrorDelay)];
    } else if CountSleeps(rest.events, ApiErrorDelay) == 1 {
      assert o.events[|o.events| - 1] == rest.events[|rest.events| - 1];
    }
  }

  /** The 60-second back-off happens at most once per call, only when a rate
      limit uses up the budget, and it is the last thing the call does: the
      loop gives up right after it, without a further sweep over the keys. */
  lemma {:induction false} RotationBackoff(keys: seq<string>, verdict: nat -> Verdict, text: string,
                                           cursor: nat, served: nat, tried: nat)
    requires |keys| > 0
    ensures BackedOff(keys, Rotation(keys, verdict, text, cursor, served, tried), tried)
    decreases Limit(keys) - tried
  {
    var key := keys[cursor % |keys|];
    if tried >= Limit(keys) {
      Spent(keys, verdict, text, cursor, served, tried);
    } else if verdict(served).Done? {
      StopsAtOnce(keys, verdict, text, cursor, served, tried);
      assert CountSleeps([Request(key, text)], ApiErrorDelay) == 0 by { assert [Request(key, text)][1..] == []; }
    } else {
      var rest := Rotation(keys, verdict, text, cursor + 1, served + 1, tried + 1);
      TransientContinues(keys, verdict, text, cursor, served, tried);
      RotationBackoff(keys, verdict, text, cursor + 1, served + 1, tried + 1);
      if tried + 1 >= Limit(keys) {
        Spent(keys, verdict, text, cursor + 1, served + 1, tried + 1);
      }
      BackoffAfterCall(keys, key, text, verdict(served).rateLimited, tried, rest);
    }
  }

  /** In an outcome whose calls were answered from reply `served` on, a
      back-off sleep means that the last reply was a rate limit. */
  ghost predicate SleptAfterRateLimit(verdict: nat -> Verdict, served: nat, o: Outcome) {
    Sleep(ApiErrorDelay) in o.events ==> o.calls >= 1 && verdict(served + o.calls - 1) == Retry(true)
  }

  /** A counted attempt keeps the back-off right after a rate limit. */
  lemma RateLimitAfterCall(keys: seq<string>, verdict: nat -> Verdict, key: string, text: string,
                           served: nat, tried: nat, rest: Outcome)
    requires tried < Limit(keys) && verdict(served).Retry?
    requires tried + 1 >= Limit(keys) ==> rest == Outcome(RetriesExhausted, [], 0)
    requires SleptAfterRateLimit(verdict, served + 1, rest)
    ensures SleptAfterRateLimit(verdict, served,
      AfterCall([Request(key, text)] + Pause(keys, verdict(served).rateLimited, tried), rest))
  {
    var o := AfterCall([Request(key, text)] + Pause(keys, verdict(served).rateLimited, tried), rest);
    if Pause(keys, verdict(served).rateLimited, tried) == [] && Sleep(ApiErrorDelay) in o.events {
      assert o.events == [Request(key, text)] + rest.events;
      assert Sleep(ApiErrorDelay) in rest.events;
    }
  }

  /** The back-off follows a rate limit: the reply to the last call. */
  lemma {:induction false} BackoffAfterRateLimit(keys: seq<string>, verdict: nat -> Verdict, text: string,
                                                 cursor: nat, served: nat, tried: nat)
    requires |keys| > 0
    ensures SleptAfterRateLimit(verdict, served, Rotation(keys, verdict, text, cursor, served, tried))
    decreases Limit(keys) - tried
  {
    var key := keys[cursor % |keys|];
    if tried >= Limit(keys) {
      Spent(keys, verdict, text, cursor, served, tried);
    } else if verdict(served).Done? {
      StopsAtOnce(keys, verdict, text, cursor, served, tried);
    } else {
      TransientContinues(keys, verdict, text, cursor, served, tried);
      BackoffAfterRateLimit(keys, verdict, text, cursor + 1, served + 1, tried + 1);
      if tried + 1 >= Limit(keys) {
        Spent(keys, verdict, text, cursor + 1, served + 1, tried + 1);
      }
      RateLimitAfterCall(keys, verdict, key, text, served, tried,
                         Rotation(keys, verdict, text, cursor + 1, served + 1, tried + 1));
    }
  }

  /** The verdicts numbered from .. from + count - 1 all retry. */
  predicate AllRetry(verdict: nat -> Verdict, from: nat, count: nat) {
    forall j :: from <= j < from + count ==> verdict(j).Retry?
  }

  /** When every reply is a rate limit or a deadline, the loop spends the
      whole budget and gives up; it sleeps once exactly when the last reply
      was a rate limit. */
  lemma {:induction false} RotationAllRetry(keys: seq<string>, verdict: nat -> Verdict, text: string,
                                            cursor: nat, served: nat, tried: nat)
    requires |keys| > 0 && tried < Limit(keys)
    requires AllRetry(verdict, served, Limit(keys) - tried)
    ensures var o := Rotation(keys, verdict, text, cursor, served, tried);
      && o.category == RetriesExhausted
      && o.calls == Limit(keys) - tried
      && CountSleeps(o.events, ApiErrorDelay) ==
           (if verdict(served + Limit(keys) - tried - 1).rateLimited then 1 else 0)
    decreases Limit(keys) - tried
  {
    assert verdict(served).Retry?;
    var pause := Pause(keys, verdict(served).rateLimited, tried);
    var before := [Request(keys[cursor % |keys|], text)] + pause;
    var rest := Rotation(keys, verdict, text, cursor + 1, served + 1, tried + 1);
    TransientContinues(keys, verdict, text, cursor, served, tried);
    CountSleepsAppend(before, rest.events, ApiErrorDelay);
    if tried + 1 < Limit(keys) {
      RotationAllRetry(keys, verdict, text, cursor + 1, served + 1, tried + 1);
      assert served + 1 + Limit(keys) - (tried + 1) - 1 == served + Limit(keys) - tried - 1;
      assert pause == [];
    } else {
      assert rest == Outcome(RetriesExhausted, [], 0);
      assert served + Limit(keys) - tried - 1 == served;
    }
  }

  /** The same over the replies themselves: when every reply is a counted
      error, the categoriser gives up after |keys| * 3 calls and sleeps once
      exactly when the last one was a rate limit. */
  lemma AllTransientGivesUp(keys: seq<string>, reply: nat -> Reply, text: string,
                            cursor: nat, served: nat)
    requires |keys| > 0 && text != []
    requires AllTransient(reply, served, Limit(keys))
    ensures var o := Categorize(keys, Verdicts(reply), text, cursor, served);
      && o.category == RetriesExhausted
      && o.calls == Limit(keys)
      && CountSleeps(o.events, ApiErrorDelay) == (if IsRateLimit(reply(served + Limit(keys) - 1)) then 1 else 0)
  {
    var v := Verdicts(reply);
    forall j | served <= j < served + Limit(keys) ensures v(j).Retry? {
      DecideRetries(reply(j));
    }
    RotationAllRetry(keys, v, text, cursor, served, 0);
  }

  /** Every verdict that ends the loop carries a reportable category. */
  ghost predicate Sound(verdict: nat -> Verdict) {
    forall n: nat :: verdict(n).Done? ==> Reportable(verdict(n).category)
  }

  /** The verdicts of the dispatch are sound, whatever the replies. */
  lemma VerdictsSound(reply: nat -> Reply)
    ensures Sound(Verdicts(reply))
  {
    forall n: nat ensures Verdicts(reply)(n).Done? ==> Reportable(Verdicts(reply)(n).category) {
      DecideCategory(reply(n));
    }
  }

  /** Every result of the loop is a sentinel or a category of the
      vocabulary. */
  lemma {:induction false} RotationResult(keys: seq<string>, verdict: nat -> Verdict, text: string,
                                          cursor: nat, served: nat, tried: nat)
    requires |keys| > 0 && Sound(verdict)
    ensures var c := Rotation(keys, verdict, text, cursor, served, tried).category;
      c == RetriesExhausted || Reportable(c)
    decreases Limit(keys) - tried
  {
    if tried < Limit(keys) && verdict(served).Retry? {
      TransientContinues(keys, verdict, text, cursor, served, tried);
      RotationResult(keys, verdict, text, cursor + 1, served + 1, tried + 1);
    } else if tried < Limit(keys) {
      StopsAtOnce(keys, verdict, text, cursor, served, tried);
    }
  }
}
