/** The remote generative-model service and the clock, as both scripts see
    them. The service is an oracle: the reply to the n-th call of a run is
    `reply(n)`, whatever the key and the prompt, so every behaviour of the
    real service is one choice of `reply`. Calls and sleeps are recorded in a
    ghost trace. */
module Service {

  datatype Option<T> = None | Some(value: T)

  /** e.args[0]: absent when the exception has no arguments, a string, or a
      value of another type (an int, a nested exception) that has no lower()
      method; `shown` is str(e.args[0]). */
  datatype FirstArg = NoArgs | StrArg(text: string) | OtherArg(shown: string)

  /** The class of an exception, as far as the scripts tell classes apart:
      hasattr catches an AttributeError and nothing else. */
  datatype ErrorKind = AttributeError | OtherError

  /** An exception raised by the SDK: `message` is str(e). */
  datatype ServiceError = ServiceError(kind: ErrorKind, message: string, firstArg: FirstArg)

  /** What one generate_content call produced. */
  datatype Reply =
    | Answer(text: string)              // a response whose .text can be read
    | NoResponse                        // a falsy response object (None)
    | Raised(error: ServiceError)       // generate_content itself raised
    | Unreadable(error: ServiceError)   // a response whose .text raises

  /** Something a script did that takes time or leaves the process. */
  datatype Event =
    | Request(key: string, excerpt: string)  // one generate_content call
    | Sleep(seconds: nat)                    // one time.sleep

  /** The keys used by the requests of a trace, in order. */
  function KeysUsed(events: seq<Event>): (keys: seq<string>)
    ensures |keys| <= |events|
  {
    if events == [] then []
    else (if events[0].Request? then [events[0].key] else []) + KeysUsed(events[1..])
  }

  /** The prompts sent by the requests of a trace, in order. */
  function Prompts(events: seq<Event>): (prompts: seq<string>)
    ensures |prompts| == |KeysUsed(events)|
  {
    if events == [] then []
    else (if events[0].Request? then [events[0].excerpt] else []) + Prompts(events[1..])
  }

  /** Every element of s is x. */
  predicate Only(s: seq<string>, x: string) {
    forall i :: 0 <= i < |s| ==> s[i] == x
  }

  lemma OnlyAppend(a: seq<string>, b: seq<string>, x: string)
    requires Only(a, x) && Only(b, x)
    ensures Only(a + b, x)
  {
    forall i | 0 <= i < |a + b| ensures (a + b)[i] == x {
      if i >= |a| {
        assert (a + b)[i] == b[i - |a|];
      }
    }
  }

  /** n copies of x. */
  function Copies(x: string, n: nat): (s: seq<string>)
    ensures |s| == n
  {
    if n == 0 then [] else [x] + Copies(x, n - 1)
  }

  lemma {:induction false} CopiesOnly(x: string, n: nat)
    ensures Only(Copies(x, n), x)
  {
    if n > 0 {
      CopiesOnly(x, n - 1);
      OnlyAppend([x], Copies(x, n - 1), x);
    }
  }

  /** The number of sleeps of the given length in a trace. */
  function CountSleeps(events: seq<Event>, seconds: nat): (n: nat)
    ensures n <= |events|
  {
    if events == [] then 0
    else (if events[0] == Sleep(seconds) then 1 else 0) + CountSleeps(events[1..], seconds)
  }

  lemma {:induction false} KeysUsedAppend(a: seq<Event>, b: seq<Event>)
    ensures KeysUsed(a + b) == KeysUsed(a) + KeysUsed(b)
  {
    if a == [] {
      assert a + b == b;
    } else {
      var head := if a[0].Request? then [a[0].key] else [];
      assert (a + b)[0] == a[0] && (a + b)[1..] == a[1..] + b;
      assert KeysUsed(a + b) == head + KeysUsed(a[1..] + b);
      KeysUsedAppend(a[1..], b);
      assert head + (KeysUsed(a[1..]) + KeysUsed(b)) == head + KeysUsed(a[1..]) + KeysUsed(b);
    }
  }

  lemma {:induction false} PromptsAppend(a: seq<Event>, b: seq<Event>)
    ensures Prompts(a + b) == Prompts(a) + Prompts(b)
  {
    if a == [] {
      assert a + b == b;
    } else {
      var head := if a[0].Request? then [a[0].excerpt] else [];
      assert (a + b)[0] == a[0] && (a + b)[1..] == a[1..] + b;
      assert Prompts(a + b) == head + Prompts(a[1..] + b);
      PromptsAppend(a[1..], b);
      assert head + (Prompts(a[1..]) + Prompts(b)) == head + Prompts(a[1..]) + Prompts(b);
    }
  }

  lemma {:induction false} CountSleepsAppend(a: seq<Event>, b: seq<Event>, seconds: nat)
    ensures CountSleeps(a + b, seconds) == CountSleeps(a, seconds) + CountSleeps(b, seconds)
  {
    if a == [] {
      assert a + b == b;
    } else {
      assert (a + b)[1..] == a[1..] + b;
      CountSleepsAppend(a[1..], b, seconds);
    }
  }

  /** The i-th key of `used` is keys[(start + i) mod |keys|]: itertools.cycle
      over the pool, started at position `start`. */
  predicate RoundRobin(keys: seq<string>, start: nat, used: seq<string>) {
    |keys| > 0 && forall i :: 0 <= i < |used| ==> used[i] == keys[(start + i) % |keys|]
  }

  /** Two round-robin stretches that meet at the right position form one. */
  lemma RoundRobinAppend(keys: seq<string>, start: nat, a: seq<string>, b: seq<string>)
    requires RoundRobin(keys, start, a) && RoundRobin(keys, start + |a|, b)
    ensures RoundRobin(keys, start, a + b)
  {
    forall i | 0 <= i < |a + b| ensures (a + b)[i] == keys[(start + i) % |keys|] {
      if i >= |a| {
        assert (a + b)[i] == b[i - |a|];
        assert start + |a| + (i - |a|) == start + i;
      }
    }
  }

  /** Two stretches appended one after the other, regrouped. */
  lemma AppendRegroup(t: seq<Event>, a: seq<Event>, b: seq<Event>)
    ensures t + a + b == t + (a + b)
  {
  }

  /** The reply to call number n. */
  function ReplyTo(reply: nat -> Reply, n: nat): Reply {
    reply(n)
  }

  /** The service the scripts talk to, and the clock they sleep on. */
  class Environment {
    const reply: nat -> Reply
    var served: nat
    ghost var trace: seq<Event>

    constructor (reply: nat -> Reply)
      ensures this.reply == reply && served == 0 && trace == []
    {
      this.reply := reply;
      served := 0;
      trace := [];
    }

    /** genai.configure(api_key=key) followed by generate_content(prompt). */
    method GenerateContent(key: string, excerpt: string) returns (r: Reply)
      modifies this
      ensures r == ReplyTo(reply, old(served))
      ensures served == old(served) + 1
      ensures trace == old(trace) + [Request(key, excerpt)]
    {
      r := ReplyTo(reply, served);
      served := served + 1;
      trace := trace + [Request(key, excerpt)];
    }

    /** time.sleep(seconds). */
    method Sleep(seconds: nat)
      modifies this
      ensures served == old(served)
      ensures trace == old(trace) + [Event.Sleep(seconds)]
    {
      trace := trace + [Event.Sleep(seconds)];
    }
  }
}
