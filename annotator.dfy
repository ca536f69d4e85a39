/** The run of annotator.py: the module-level state (the key cycle, the
    global category dictionary and the header flag) as the fields of an
    `Annotator` object, categorize_pdf_with_gemini and process_pdfs_in_folder
    as its methods, and the program start as `Run`.

    `FolderSpec` is the reference definition of the folder loop; the lemmas
    after it state what the loop guarantees. */
module Annotator {
  import opened Text
  import opened Service
  import opened KeyPool
  import opened Categorizer
  import opened CsvSink

  const ExtractionFailed: string := "Text Extraction Failed"
  const PacingDelay: nat := 1

  /** The listed names the loop processes, in listing order. */
  function PdfNames(names: seq<string>): seq<string> {
    if names == [] then []
    else (if IsPdf(names[0]) then [names[0]] else []) + PdfNames(names[1..])
  }

  /** Only names ending in ".pdf" (in any letter case) are processed, each
      as often as it is listed. */
  lemma {:induction false} PdfNamesFilter(names: seq<string>, x: string)
    ensures x in PdfNames(names) <==> x in names && IsPdf(x)
  {
    if names != [] {
      PdfNamesFilter(names[1..], x);
      assert names == [names[0]] + names[1..];
    }
  }

  /** `if pdf_text:` -- extraction succeeded with a non-empty string. */
  predicate HasText(extracted: Option<string>) {
    extracted.Some? && extracted.value != []
  }

  /** The category one PDF receives and the calls it makes. */
  function Document(keys: seq<string>, verdict: nat -> Verdict, extracted: Option<string>,
                    cursor: nat, served: nat): Outcome
    requires |keys| > 0
  {
    if HasText(extracted) then Categorizer.Categorize(keys, verdict, extracted.value, cursor, served)
    else Outcome(ExtractionFailed, [], 0)
  }

  /** What one run of the folder loop records, does and calls. */
  datatype FolderRun = FolderRun(entries: seq<Entry>, events: seq<Event>, calls: nat)

  /** The folder loop over `names` with the key cycle at `cursor` and the
      service at call `served`; `verdict(n)` is what the categoriser makes of
      the n-th reply and `extract` gives extract_text_from_pdf's result for
      each name (None when reading failed). Each PDF is followed by the
      one-second pacing sleep. */
  function FolderSpec(keys: seq<string>, verdict: nat -> Verdict, extract: string -> Option<string>,
                      names: seq<string>, cursor: nat, served: nat): FolderRun
    requires |keys| > 0
    decreases |names|
  {
    if names == [] then FolderRun([], [], 0)
    else if !IsPdf(names[0]) then FolderSpec(keys, verdict, extract, names[1..], cursor, served)
    else
      var o := Document(keys, verdict, extract(names[0]), cursor, served);
      var rest := FolderSpec(keys, verdict, extract, names[1..], cursor + o.calls, served + o.calls);
      FolderRun([Entry(names[0], o.category)] + rest.entries,
                o.events + [Sleep(PacingDelay)] + rest.events,
                o.calls + rest.calls)
  }

  function Names(entries: seq<Entry>): seq<string> {
    if entries == [] then [] else [entries[0].name] + Names(entries[1..])
  }

  /** pdf_categories_global[filename] = category, for each entry in turn. */
  function Record(m: map<string, string>, entries: seq<Entry>): map<string, string>
    decreases |entries|
  {
    if entries == [] then m else Record(m[entries[0].name := entries[0].category], entries[1..])
  }

  /** A PDF first in the listing gets the first entry, its calls and the
      pacing sleep come first, and the loop goes on from where it left the
      key cycle and the service. */
  lemma FolderPdf(keys: seq<string>, verdict: nat -> Verdict, extract: string -> Option<string>,
                  names: seq<string>, cursor: nat, served: nat)
    requires |keys| > 0 && names != [] && IsPdf(names[0])
    ensures var o := Document(keys, verdict, extract(names[0]), cursor, served);
      var rest := FolderSpec(keys, verdict, extract, names[1..], cursor + o.calls, served + o.calls);
      FolderSpec(keys, verdict, extract, names, cursor, served)
        == FolderRun([Entry(names[0], o.category)] + rest.entries,
                     o.events + [Sleep(PacingDelay)] + rest.events, o.calls + rest.calls)
  {
  }

  /** A file that is not a PDF is skipped. */
  lemma FolderSkip(keys: seq<string>, verdict: nat -> Verdict, extract: string -> Option<string>,
                   names: seq<string>, cursor: nat, served: nat)
    requires |keys| > 0 && names != [] && !IsPdf(names[0])
    ensures FolderSpec(keys, verdict, extract, names, cursor, served)
         == FolderSpec(keys, verdict, extract, names[1..], cursor, served)
  {
  }

  lemma NamesCons(e: Entry, es: seq<Entry>)
    ensures Names([e] + es) == [e.name] + Names(es)
  {
    assert ([e] + es)[1..] == es;
  }

  lemma RecordCons(m: map<string, string>, e: Entry, es: seq<Entry>)
    ensures Record(m, [e] + es) == Record(m[e.name := e.category], es)
  {
    assert ([e] + es)[1..] == es;
  }

  /** What one document costs: a round-robin stretch of calls from the
      cursor, at most |keys| * 3 of them, and none without text. */
  lemma DocumentCalls(keys: seq<string>, verdict: nat -> Verdict, extracted: Option<string>,
                      cursor: nat, served: nat)
    requires |keys| > 0
    ensures var o := Document(keys, verdict, extracted, cursor, served);
      && RoundRobin(keys, cursor, KeysUsed(o.events))
      && o.calls == |KeysUsed(o.events)|
      && o.calls <= Limit(keys)
      && (!HasText(extracted) ==> o.calls == 0)
  {
    if HasText(extracted) {
      var text := extracted.value;
      RotationKeys(keys, verdict, text, cursor, served, 0);
      RotationCallBound(keys, verdict, text, cursor, served, 0);
    }
  }

  /** The category of one document: "Text Extraction Failed" exactly when
      there was no text, otherwise a sentinel of the categoriser or a
      category of the vocabulary. */
  predicate CategoryFor(category: string, extracted: Option<string>) {
    if HasText(extracted) then
      category == RetriesExhausted || Reportable(category)
    else category == ExtractionFailed
  }

  lemma DocumentCategory(keys: seq<string>, verdict: nat -> Verdict, extracted: Option<string>,
                         cursor: nat, served: nat)
    requires |keys| > 0 && Sound(verdict)
    ensures CategoryFor(Document(keys, verdict, extracted, cursor, served).category, extracted)
  {
    if HasText(extracted) {
      RotationResult(keys, verdict, extracted.value, cursor, served, 0);
    }
  }

  /** "Text Extraction Failed" is not a category the model or the
      categoriser's sentinels can produce, so it marks exactly the PDFs
      without text. */
  lemma CategoryForIff(category: string, extracted: Option<string>)
    requires CategoryFor(category, extracted)
    ensures category == ExtractionFailed <==> !HasText(extracted)
  {
    OutsideByShape(ExtractionFailed);
  }

  /** A PDF first in the listing adds its name first. */
  lemma EntriesAfterPdf(keys: seq<string>, verdict: nat -> Verdict, extract: string -> Option<string>,
                        names: seq<string>, cursor: nat, served: nat)
    requires |keys| > 0 && names != [] && IsPdf(names[0])
    requires var o := Document(keys, verdict, extract(names[0]), cursor, served);
      Names(FolderSpec(keys, verdict, extract, names[1..], cursor + o.calls, served + o.calls).entries)
        == PdfNames(names[1..])
    ensures Names(FolderSpec(keys, verdict, extract, names, cursor, served).entries) == PdfNames(names)
  {
    var o := Document(keys, verdict, extract(names[0]), cursor, served);
    var rest := FolderSpec(keys, verdict, extract, names[1..], cursor + o.calls, served + o.calls);
    FolderPdf(keys, verdict, extract, names, cursor, served);
    NamesCons(Entry(names[0], o.category), rest.entries);
  }

  /** Exactly the PDFs get an entry, one each, in listing order. */
  lemma {:induction false} FolderEntries(keys: seq<string>, verdict: nat -> Verdict,
                                         extract: string -> Option<string>,
                                         names: seq<string>, cursor: nat, served: nat)
    requires |keys| > 0
    ensures Names(FolderSpec(keys, verdict, extract, names, cursor, served).entries) == PdfNames(names)
    decreases |names|
  {
    if names != [] && IsPdf(names[0]) {
      var o := Document(keys, verdict, extract(names[0]), cursor, served);
      FolderEntries(keys, verdict, extract, names[1..], cursor + o.calls, served + o.calls);
      EntriesAfterPdf(keys, verdict, extract, names, cursor, served);
    } else if names != [] {
      FolderSkip(keys, verdict, extract, names, cursor, served);
      FolderEntries(keys, verdict, extract, names[1..], cursor, served);
    }
  }

  /** Every entry's category fits its document. */
  predicate AllFit(entries: seq<Entry>, extract: string -> Option<string>) {
    entries == [] || (CategoryFor(entries[0].category, extract(entries[0].name)) && AllFit(entries[1..], extract))
  }

  lemma AllFitCons(e: Entry, es: seq<Entry>, extract: string -> Option<string>)
    requires CategoryFor(e.category, extract(e.name)) && AllFit(es, extract)
    ensures AllFit([e] + es, extract)
  {
    assert ([e] + es)[1..] == es;
  }

  lemma {:induction false} AllFitIndex(entries: seq<Entry>, extract: string -> Option<string>)
    requires AllFit(entries, extract)
    ensures forall i :: 0 <= i < |entries| ==> CategoryFor(entries[i].category, extract(entries[i].name))
  {
    if entries != [] {
      AllFitIndex(entries[1..], extract);
      forall i | 0 < i < |entries| ensures entries[i] == entries[1..][i - 1] {}
    }
  }

  /** Every recorded category fits its document: "Text Extraction Failed"
      for the PDFs whose text could not be read or was empty, a sentinel or a
      category of the vocabulary for the others. */
  lemma FolderCategories(keys: seq<string>, reply: nat -> Reply, extract: string -> Option<string>,
                         names: seq<string>, cursor: nat, served: nat)
    requires |keys| > 0
    ensures var es := FolderSpec(keys, Verdicts(reply), extract, names, cursor, served).entries;
      forall i :: 0 <= i < |es| ==> CategoryFor(es[i].category, extract(es[i].name))
  {
    VerdictsSound(reply);
    FolderFit(keys, Verdicts(reply), extract, names, cursor, served);
    AllFitIndex(FolderSpec(keys, Verdicts(reply), extract, names, cursor, served).entries, extract);
  }

  /** A PDF first in the listing gets a category that fits it. */
  lemma FitAfterPdf(keys: seq<string>, verdict: nat -> Verdict, extract: string -> Option<string>,
                    names: seq<string>, cursor: nat, served: nat)
    requires |keys| > 0 && Sound(verdict) && names != [] && IsPdf(names[0])
    requires var o := Document(keys, verdict, extract(names[0]), cursor, served);
      AllFit(FolderSpec(keys, verdict, extract, names[1..], cursor + o.calls, served + o.calls).entries,
             extract)
    ensures AllFit(FolderSpec(keys, verdict, extract, names, cursor, served).entries, extract)
  {
    var o := Document(keys, verdict, extract(names[0]), cursor, served);
    var rest := FolderSpec(keys, verdict, extract, names[1..], cursor + o.calls, served + o.calls);
    FolderPdf(keys, verdict, extract, names, cursor, served);
    DocumentCategory(keys, verdict, extract(names[0]), cursor, served);
    AllFitCons(Entry(names[0], o.category), rest.entries, extract);
  }

  lemma {:induction false} FolderFit(keys: seq<string>, verdict: nat -> Verdict,
                                     extract: string -> Option<string>,
                                     names: seq<string>, cursor: nat, served: nat)
    requires |keys| > 0 && Sound(verdict)
    ensures AllFit(FolderSpec(keys, verdict, extract, names, cursor, served).entries, extract)
    decreases |names|
  {
    if names != [] && IsPdf(names[0]) {
      var o := Document(keys, verdict, extract(names[0]), cursor, served);
      FolderFit(keys, verdict, extract, names[1..], cursor + o.calls, served + o.calls);
      FitAfterPdf(keys, verdict, extract, names, cursor, served);
    } else if names != [] {
      FolderSkip(keys, verdict, extract, names, cursor, served);
      FolderFit(keys, verdict, extract, names[1..], cursor, served);
    }
  }

  /** A document's round-robin stretch, its pacing sleep and the loop's
      stretch from where the document left the cycle form one stretch. */
  lemma RoundRobinAfterDocument(keys: seq<string>, cursor: nat, o: Outcome, rest: FolderRun)
    requires RoundRobin(keys, cursor, KeysUsed(o.events)) && o.calls == |KeysUsed(o.events)|
    requires RoundRobin(keys, cursor + o.calls, KeysUsed(rest.events)) && rest.calls == |KeysUsed(rest.events)|
    ensures var events := o.events + [Sleep(PacingDelay)] + rest.events;
      RoundRobin(keys, cursor, KeysUsed(events)) && o.calls + rest.calls == |KeysUsed(events)|
  {
    var pace := [Sleep(PacingDelay)];
    KeysUsedAppend(o.events, pace);
    KeysUsedAppend(o.events + pace, rest.events);
    assert KeysUsed(pace) == [] by { assert pace[1..] == []; }
    assert KeysUsed(o.events + pace) == KeysUsed(o.events);
    RoundRobinAppend(keys, cursor, KeysUsed(o.events), KeysUsed(rest.events));
  }

  /** Across the whole run the i-th call uses keys[(cursor + i) mod |keys|]:
      the cycle is never reset between documents. */
  lemma {:induction false} FolderRoundRobin(keys: seq<string>, verdict: nat -> Verdict,
                                            extract: string -> Option<string>,
                                            names: seq<string>, cursor: nat, served: nat)
    requires |keys| > 0
    ensures var run := FolderSpec(keys, verdict, extract, names, cursor, served);
      && RoundRobin(keys, cursor, KeysUsed(run.events))
      && run.calls == |KeysUsed(run.events)|
    decreases |names|
  {
    if names != [] && IsPdf(names[0]) {
      var o := Document(keys, verdict, extract(names[0]), cursor, served);
      FolderPdf(keys, verdict, extract, names, cursor, served);
      FolderRoundRobin(keys, verdict, extract, names[1..], cursor + o.calls, served + o.calls);
      DocumentCalls(keys, verdict, extract(names[0]), cursor, served);
      RoundRobinAfterDocument(keys, cursor, o,
                              FolderSpec(keys, verdict, extract, names[1..], cursor + o.calls, served + o.calls));
    } else if names != [] {
      FolderSkip(keys, verdict, extract, names, cursor, served);
      FolderRoundRobin(keys, verdict, extract, names[1..], cursor, served);
    }
  }

  /** Each PDF costs at most |keys| * 3 calls, and files that are not PDFs
      cost none. */
  lemma {:induction false} FolderCallBound(keys: seq<string>, verdict: nat -> Verdict,
                                           extract: string -> Option<string>,
                                           names: seq<string>, cursor: nat, served: nat)
    requires |keys| > 0
    ensures var run := FolderSpec(keys, verdict, extract, names, cursor, served);
      run.calls <= Limit(keys) * |run.entries|
    decreases |names|
  {
    if names != [] && IsPdf(names[0]) {
      var o := Document(keys, verdict, extract(names[0]), cursor, served);
      var rest := FolderSpec(keys, verdict, extract, names[1..], cursor + o.calls, served + o.calls);
      FolderPdf(keys, verdict, extract, names, cursor, served);
      FolderCallBound(keys, verdict, extract, names[1..], cursor + o.calls, served + o.calls);
      DocumentCalls(keys, verdict, extract(names[0]), cursor, served);
      assert Limit(keys) * (1 + |rest.entries|) == Limit(keys) + Limit(keys) * |rest.entries|;
    } else if names != [] {
      FolderSkip(keys, verdict, extract, names, cursor, served);
      FolderCallBound(keys, verdict, extract, names[1..], cursor, served);
    }
  }

  /** The dictionary gains exactly the names of the entries. */
  lemma {:induction false} RecordKeys(m: map<string, string>, entries: seq<Entry>)
    ensures forall n :: n in Record(m, entries) <==> n in m || n in Names(entries)
    decreases |entries|
  {
    if entries != [] {
      RecordKeys(m[entries[0].name := entries[0].category], entries[1..]);
    }
  }

  /** For names that are distinct, as a directory listing's are, each entry's
      category is what the dictionary holds for its name afterwards. */
  lemma {:induction false} RecordEntries(m: map<string, string>, entries: seq<Entry>)
    requires forall i, j :: 0 <= i < j < |entries| ==> entries[i].name != entries[j].name
    ensures forall i :: 0 <= i < |entries| ==>
      entries[i].name in Record(m, entries) && Record(m, entries)[entries[i].name] == entries[i].category
    decreases |entries|
  {
    if entries != [] {
      var e := entries[0];
      var tail := entries[1..];
      var m' := m[e.name := e.category];
      RecordEntries(m', tail);
      assert forall j :: 0 <= j < |tail| ==> tail[j] == entries[j + 1];
      RecordSkips(m', tail, e.name);
      forall i | 0 <= i < |entries|
        ensures entries[i].name in Record(m, entries) && Record(m, entries)[entries[i].name] == entries[i].category
      {
        if i > 0 {
          assert entries[i] == tail[i - 1];
        }
      }
    }
  }

  /** Entries for other names leave a name's value alone. */
  lemma {:induction false} RecordSkips(m: map<string, string>, entries: seq<Entry>, name: string)
    requires name in m
    requires forall j :: 0 <= j < |entries| ==> entries[j].name != name
    ensures name in Record(m, entries) && Record(m, entries)[name] == m[name]
    decreases |entries|
  {
    if entries != [] {
      RecordSkips(m[entries[0].name := entries[0].category], entries[1..], name);
    }
  }

  /** A loop that has already made `calls` calls and did `events`, followed
      by the rest of the loop. */
  function Resume(events: seq<Event>, calls: nat, rest: Outcome): Outcome {
    Outcome(rest.category, events + rest.events, calls + rest.calls)
  }

  lemma ResumeAfterCall(events: seq<Event>, calls: nat, before: seq<Event>, rest: Outcome)
    ensures Resume(events, calls, AfterCall(before, rest)) == Resume(events + before, calls + 1, rest)
  {
    assert events + (before + rest.events) == (events + before) + rest.events;
  }

  /** A reply that ends the categoriser's loop ends it with that one
      request. */
  lemma ResumeStops(keys: seq<string>, verdict: nat -> Verdict, text: string, events: seq<Event>,
                    cursor: nat, served: nat, tried: nat)
    requires |keys| > 0 && tried < Limit(keys) && verdict(served).Done?
    ensures Resume(events, tried, Rotation(keys, verdict, text, cursor, served, tried))
         == Outcome(verdict(served).category, events + [Request(keys[cursor % |keys|], text)], tried + 1)
  {
    StopsAtOnce(keys, verdict, text, cursor, served, tried);
  }

  /** A counted attempt moves its request and its pause from the rest of
      the loop into what has been done. */
  lemma ResumeRetries(keys: seq<string>, verdict: nat -> Verdict, text: string, events: seq<Event>,
                      cursor: nat, served: nat, tried: nat)
    requires |keys| > 0 && tried < Limit(keys) && verdict(served).Retry?
    ensures Resume(events, tried, Rotation(keys, verdict, text, cursor, served, tried))
         == Resume(events + ([Request(keys[cursor % |keys|], text)] + Pause(keys, verdict(served).rateLimited, tried)),
                   tried + 1, Rotation(keys, verdict, text, cursor + 1, served + 1, tried + 1))
  {
    TransientContinues(keys, verdict, text, cursor, served, tried);
    ResumeAfterCall(events, tried, [Request(keys[cursor % |keys|], text)] + Pause(keys, verdict(served).rateLimited, tried),
                    Rotation(keys, verdict, text, cursor + 1, served + 1, tried + 1));
  }

  /** What is left of the folder loop once the first PDF of `todo` is
      processed: the goal, stated from the state before it, restated from
      the state after it (the primed values). */
  lemma GoalAfterDocument(keys: seq<string>, verdict: nat -> Verdict, extract: string -> Option<string>,
                          todo: seq<string>, goal: FolderGoal,
                          cats: map<string, string>, rows: seq<Row>, header: bool, present: bool,
                          trace: seq<Event>, cursor: nat, served: nat,
                          cats': map<string, string>, rows': seq<Row>, header': bool, present': bool,
                          trace': seq<Event>, cursor': nat, served': nat)
    requires |keys| > 0 && todo != [] && IsPdf(todo[0])
    requires var pending := FolderSpec(keys, verdict, extract, todo, cursor, served);
      goal == FolderGoal(Record(cats, pending.entries), rows + RunRows(pending.entries, header, present),
                         trace + pending.events, cursor + pending.calls, served + pending.calls,
                         header || pending.entries != [], present || pending.entries != [])
    requires var o := Document(keys, verdict, extract(todo[0]), cursor, served);
      && cats' == cats[todo[0] := o.category]
      && rows' == rows + SavedRows(Entry(todo[0], o.category), !header, present)
      && header' && present'
      && trace' == trace + o.events + [Sleep(PacingDelay)]
      && cursor' == cursor + o.calls && served' == served + o.calls
    ensures var next := FolderSpec(keys, verdict, extract, todo[1..], cursor', served');
      goal == FolderGoal(Record(cats', next.entries), rows' + RunRows(next.entries, header', present'),
                         trace' + next.events, cursor' + next.calls, served' + next.calls,
                         header' || next.entries != [], present' || next.entries != [])
  {
    var o := Document(keys, verdict, extract(todo[0]), cursor, served);
    FolderPdf(keys, verdict, extract, todo, cursor, served);
    GoalStep(goal, Entry(todo[0], o.category), o, FolderSpec(keys, verdict, extract, todo[1..], cursor', served'),
             cats, rows, header, present, trace, cursor, served,
             cats', rows', header', present', trace', cursor', served');
  }

  /** The same, over values: the loop's first entry, calls and events
      move from what is pending into the state. */
  lemma GoalStep(goal: FolderGoal, e: Entry, o: Outcome, next: FolderRun,
                 cats: map<string, string>, rows: seq<Row>, header: bool, present: bool,
                 trace: seq<Event>, cursor: nat, served: nat,
                 cats': map<string, string>, rows': seq<Row>, header': bool, present': bool,
                 trace': seq<Event>, cursor': nat, served': nat)
    requires var entries := [e] + next.entries;
      var events := o.events + [Sleep(PacingDelay)] + next.events;
      goal == FolderGoal(Record(cats, entries), rows + RunRows(entries, header, present),
                         trace + events, cursor + (o.calls + next.calls), served + (o.calls + next.calls),
                         header || entries != [], present || entries != [])
    requires && cats' == cats[e.name := e.category]
             && rows' == rows + SavedRows(e, !header, present)
             && header' && present'
             && trace' == trace + o.events + [Sleep(PacingDelay)]
             && cursor' == cursor + o.calls && served' == served + o.calls
    ensures goal == FolderGoal(Record(cats', next.entries), rows' + RunRows(next.entries, header', present'),
                               trace' + next.events, cursor' + next.calls, served' + next.calls,
                               header' || next.entries != [], present' || next.entries != [])
  {
    RecordCons(cats, e, next.entries);
    RunRowsCons(e, next.entries, header, present);
    AppendRegroup(trace, o.events, [Sleep(PacingDelay)]);
    AppendRegroup(trace, o.events + [Sleep(PacingDelay)], next.events);
  }

  /** The state annotator.py keeps at module level during one run. */
  class Annotator {
    const keys: seq<string>
    const env: Environment
    const csv: CsvFile
    ghost const verdicts: nat -> Verdict      // what the categoriser makes of each reply
    var cursor: nat                          // how far api_key_cycle has advanced
    var categories: map<string, string>      // pdf_categories_global
    var headerWritten: bool                  // csv_header_written

    constructor (keys: seq<string>, env: Environment, csv: CsvFile)
      requires |keys| > 0
      ensures this.keys == keys && this.env == env && this.csv == csv
      ensures verdicts == Verdicts(env.reply) && Linked()
      ensures cursor == 0 && categories == map[] && !headerWritten
    {
      this.keys := keys;
      this.env := env;
      this.csv := csv;
      verdicts := Verdicts(env.reply);
      cursor := 0;
      categories := map[];
      headerWritten := false;
    }

    /** `verdicts` is the dispatch applied to the service's replies; the
        fact is used where a reply has been received. */
    ghost predicate Linked() {
      forall k {:trigger ReplyTo(env.reply, k)} :: verdicts(k) == Decide(ReplyTo(env.reply, k))
    }

    /** next(api_key_cycle) */
    method NextKey() returns (key: string)
      requires |keys| > 0
      modifies this`cursor
      ensures key == keys[old(cursor) % |keys|] && cursor == old(cursor) + 1
    {
      key := keys[cursor % |keys|];
      cursor := cursor + 1;
    }

    /** categorize_pdf_with_gemini(text) */
    method Categorize(text: string) returns (category: string)
      requires |keys| > 0 && Linked()
      modifies this`cursor, env
      ensures var o := Categorizer.Categorize(keys, verdicts, text, old(cursor), old(env.served));
        && category == o.category
        && cursor == old(cursor) + o.calls && env.served == old(env.served) + o.calls
        && env.trace == old(env.trace) + o.events
    {
      if text == [] {
        return NoText;
      }
      category := Attempts(text);
    }

    /** The state of the while loop of categorize_pdf_with_gemini after
        `tried` counted attempts, each of them one call: the key cycle and the
        service have moved on by `tried`, and `whole` (what the loop does from
        the start) is the trace so far followed by what the loop has yet to
        do. The back-off flag is only ever set once the budget is spent. */
    ghost predicate LoopInv(text: string, whole: Outcome, c0: nat, n0: nat, tried: int, delayed: bool)
      reads this, env
    {
      && |keys| > 0 && Linked() && 0 <= tried
      && cursor == c0 + tried && env.served == n0 + tried
      && (delayed ==> tried >= Limit(keys))
      && whole == Resume(env.trace, tried, Rotation(keys, verdicts, text, cursor, env.served, tried))
    }

    /** The while loop of categorize_pdf_with_gemini. */
    method Attempts(text: string) returns (category: string)
      requires |keys| > 0 && Linked()
      modifies this`cursor, env
      ensures var o := Rotation(keys, verdicts, text, old(cursor), old(env.served), 0);
        && category == o.category
        && cursor == old(cursor) + o.calls && env.served == old(env.served) + o.calls
        && env.trace == old(env.trace) + o.events
    {
      var tried := 0;          // api_keys_tried_count
      var delayed := false;    // keys_exhausted_delay_occurred
      ghost var c0, n0 := cursor, env.served;
      ghost var whole := Resume(env.trace, 0, Rotation(keys, verdicts, text, c0, n0, 0));
      while tried < Limit(keys)
        invariant LoopInv(text, whole, c0, n0, tried, delayed)
        decreases Limit(keys) - tried
      {
        var stop, slept := Attempt(text, tried, delayed, whole, c0, n0);
        if stop.Some? {
          return stop.value;
        }
        tried := tried + 1;
        delayed := slept;
      }
      assert env.trace + [] == env.trace;
      return RetriesExhausted;
    }

    /** One pass of the loop body: `stop` holds the result when the reply
        ends the loop, which then has done all of `whole`; otherwise the
        attempt counts, and `slept` says whether the back-off was taken. */
    method Attempt(text: string, tried: int, delayed: bool, ghost whole: Outcome, ghost c0: nat, ghost n0: nat)
      returns (stop: Option<string>, slept: bool)
      requires tried < Limit(keys) && LoopInv(text, whole, c0, n0, tried, delayed)
      modifies this`cursor, env
      ensures stop.None? ==> LoopInv(text, whole, c0, n0, tried + 1, slept)
      ensures stop.Some? ==>
        && cursor == c0 + tried + 1 && env.served == n0 + tried + 1
        && whole == Outcome(stop.value, env.trace, tried + 1)
    {
      ghost var c, n, t := cursor, env.served, env.trace;
      var key := NextKey();
      var v := Consult(key, text);
      slept := false;
      if v.Done? {
        ResumeStops(keys, verdicts, text, t, c, n, tried);
        return Some(v.category), slept;
      }
      ResumeRetries(keys, verdicts, text, t, c, n, tried);
      stop := None;
      slept := Backoff(v.rateLimited, tried, delayed);
      AppendRegroup(t, [Request(key, text)], Pause(keys, v.rateLimited, tried));
    }

    /** The call of the try block and what the loop body makes of its reply. */
    method Consult(key: string, text: string) returns (v: Verdict)
      requires Linked()
      modifies env
      ensures v == verdicts(old(env.served))
      ensures env.served == old(env.served) + 1 && env.trace == old(env.trace) + [Request(key, text)]
    {
      var r := env.GenerateContent(key, text);
      v := Judge(r);
    }

    /** The back-off of the except clause: sleep when a rate limit uses up
        the budget and no back-off was taken yet. */
    method Backoff(rateLimited: bool, tried: int, delayed: bool) returns (slept: bool)
      requires 0 <= tried < Limit(keys) && (delayed ==> tried >= Limit(keys))
      modifies env
      ensures env.served == old(env.served)
      ensures env.trace == old(env.trace) + Pause(keys, rateLimited, tried)
      ensures slept ==> tried + 1 >= Limit(keys)
    {
      slept := false;
      if rateLimited && tried + 1 >= Limit(keys) && !delayed {
        env.Sleep(ApiErrorDelay);
        slept := true;
      } else {
        assert env.trace + [] == env.trace;
      }
    }

    /** The try block after the call and its except clause: an answer is
        validated, a missing response is an API error, and an exception is
        retried when it is a rate limit or a deadline and fatal otherwise,
        with the deadline test as Categorizer.Classify corrects it. */
    method Judge(r: Reply) returns (v: Verdict)
      ensures v == Decide(r)
      ensures v.Retry? <==> IsTransient(r)
      ensures v.Retry? ==> (v.rateLimited <==> IsRateLimit(r))
      ensures v.Done? ==> v.category == (if r.Answer? then Validate(r.text) else ApiError)
    {
      DecideRetries(r);
      if r.Answer? {
        return Done(Validate(r.text));
      } else if r.NoResponse? {
        return Done(ApiError);
      }
      var kind := Classify(r.error);
      if kind == RateLimited {
        return Retry(true);
      } else if kind == DeadlineExceeded {
        return Retry(false);
      }
      return Done(ApiError);
    }

    method ProcessDocument(name: string, extracted: Option<string>)
      requires |keys| > 0 && Linked()
      modifies this, env, csv
      ensures var o := Document(keys, verdicts, extracted, old(cursor), old(env.served));
        && categories == old(categories)[name := o.category]
        && csv.rows == old(csv.rows) + SavedRows(Entry(name, o.category), !old(headerWritten), old(csv.present))
        && csv.present && headerWritten
        && env.trace == old(env.trace) + o.events + [Sleep(PacingDelay)]
        && cursor == old(cursor) + o.calls && env.served == old(env.served) + o.calls
    {
      var category := CategorizeText(extracted);
      categories := categories[name := category];
      csv.Save(Entry(name, categories[name]), !headerWritten);
      if !headerWritten {
        headerWritten := true;
      }
      env.Sleep(PacingDelay);
    }

    /** `if pdf_text:` categorize the text, otherwise mark the extraction
        as failed without a call. */
    method CategorizeText(extracted: Option<string>) returns (category: string)
      requires |keys| > 0 && Linked()
      modifies this`cursor, env
      ensures var o := Document(keys, verdicts, extracted, old(cursor), old(env.served));
        && category == o.category
        && cursor == old(cursor) + o.calls && env.served == old(env.served) + o.calls
        && env.trace == old(env.trace) + o.events
    {
      if extracted.Some? && extracted.value != [] {
        category := Categorize(extracted.value);
      } else {
        assert env.trace + [] == env.trace;
        category := ExtractionFailed;
      }
    }

    /** The state the folder loop must arrive at, given what is left to do:
        the current state followed by the folder loop over `todo`. */
    ghost predicate Heading(goal: FolderGoal, todo: seq<string>, extract: string -> Option<string>)
      reads this, env, csv
    {
      && |keys| > 0 && Linked()
      && var pending := FolderSpec(keys, verdicts, extract, todo, cursor, env.served);
      goal == FolderGoal(Record(categories, pending.entries),
                         csv.rows + RunRows(pending.entries, headerWritten, csv.present),
                         env.trace + pending.events,
                         cursor + pending.calls, env.served + pending.calls,
                         headerWritten || pending.entries != [], csv.present || pending.entries != [])
    }

    /** process_pdfs_in_folder(folder): `names` is the folder's listing and
        `extract` gives extract_text_from_pdf's result for each name. */
    method ProcessFolder(names: seq<string>, extract: string -> Option<string>)
      returns (result: map<string, string>)
      requires |keys| > 0 && Linked()
      modifies this, env, csv
      ensures var run := FolderSpec(keys, verdicts, extract, names, old(cursor), old(env.served));
        && result == categories
        && categories == Record(old(categories), run.entries)
        && csv.rows == old(csv.rows) + RunRows(run.entries, old(headerWritten), old(csv.present))
        && headerWritten == (old(headerWritten) || run.entries != [])
        && csv.present == (old(csv.present) || run.entries != [])
        && env.trace == old(env.trace) + run.events
        && cursor == old(cursor) + run.calls && env.served == old(env.served) + run.calls
    {
      ghost var run := FolderSpec(keys, verdicts, extract, names, cursor, env.served);
      ghost var goal := FolderGoal(Record(categories, run.entries),
                                   csv.rows + RunRows(run.entries, headerWritten, csv.present),
                                   env.trace + run.events,
                                   cursor + run.calls, env.served + run.calls,
                                   headerWritten || run.entries != [], csv.present || run.entries != []);
      for i := 0 to |names|
        invariant Heading(goal, names[i..], extract)
      {
        assert names[i..][1..] == names[i + 1..];
        Visit(names[i..], extract, goal);
      }
      assert csv.rows + [] == csv.rows && env.trace + [] == env.trace;
      return categories;
    }

    /** The body of the folder loop for the first name of `todo`: PDFs are
        processed, other files skipped. */
    method Visit(todo: seq<string>, extract: string -> Option<string>, ghost goal: FolderGoal)
      requires todo != [] && Heading(goal, todo, extract)
      modifies this, env, csv
      ensures Heading(goal, todo[1..], extract)
    {
      if IsPdf(todo[0]) {
        VisitPdf(todo, extract, goal);
      }
    }

    /** The loop body for a PDF. */
    method VisitPdf(todo: seq<string>, extract: string -> Option<string>, ghost goal: FolderGoal)
      requires todo != [] && IsPdf(todo[0]) && Heading(goal, todo, extract)
      modifies this, env, csv
      ensures Heading(goal, todo[1..], extract)
    {
      ghost var c, n, cats, rows, header, present, trace :=
        cursor, env.served, categories, csv.rows, headerWritten, csv.present, env.trace;
      ProcessDocument(todo[0], extract(todo[0]));
      GoalAfterDocument(keys, verdicts, extract, todo, goal, cats, rows, header, present, trace, c, n,
                        categories, csv.rows, headerWritten, csv.present, env.trace, cursor, env.served);
    }
  }

  /** The values the fields of an Annotator, its file and its service take
      at the end of a folder loop. */
  datatype FolderGoal = FolderGoal(categories: map<string, string>, rows: seq<Row>, trace: seq<Event>,
                                   cursor: nat, served: nat, headerWritten: bool, present: bool)

  /** The program: load the key pool, stop when it is empty, otherwise run
      the folder loop once with a fresh key cycle and an empty dictionary.
      `raw` holds the configured environment variables. */
  method Run(raw: seq<Option<string>>, names: seq<string>, extract: string -> Option<string>,
             env: Environment, csv: CsvFile)
    returns (result: Option<map<string, string>>)
    modifies env, csv
    ensures LoadPool(raw).None? ==>
      result.None? && env.trace == old(env.trace) && env.served == old(env.served)
      && csv.rows == old(csv.rows) && csv.present == old(csv.present)
    ensures LoadPool(raw).Some? ==>
      var run := FolderSpec(LoadPool(raw).value, Verdicts(env.reply), extract, names, 0, old(env.served));
      && result == Some(Record(map[], run.entries))
      && csv.rows == old(csv.rows) + RunRows(run.entries, false, old(csv.present))
      && csv.present == (old(csv.present) || run.entries != [])
      && env.trace == old(env.trace) + run.events
      && env.served == old(env.served) + run.calls
  {
    var pool := LoadPool(raw);
    if pool.None? {
      return None;
    }
    var annotator := new Annotator(pool.value, env, csv);
    var categories := annotator.ProcessFolder(names, extract);
    return Some(categories);
  }
}
