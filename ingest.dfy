/** The run of annotateToDb.py: for every PDF of the folder, read its
    metadata and its text, skip it when either fails, otherwise ask for
    labels and upsert the paper, then pause two seconds.

    `IngestSpec` is the reference definition of the folder loop;
    `IngestFolder` runs it against the service and the table. */
module Ingest {
  import opened Text
  import opened Service
  import opened Labeler
  import opened PaperStore

  const PacingDelay: nat := 2

  /** What the folder holds under a name: nothing, a file the PDF library
      cannot open, or a document with its metadata dictionary and the text
      of each page. */
  datatype PdfFile = Missing | Damaged | Readable(info: map<string, string>, pages: seq<string>)

  datatype Metadata = Metadata(title: string, author: string, publicationDate: string)

  /** dict.get(key, default) */
  function Get(info: map<string, string>, key: string, default: string): (v: string)
    ensures key in info ==> v == info[key]
    ensures key !in info ==> v == default
  {
    if key in info then info[key] else default
  }

  /** extract_metadata_from_pdf: None when the file is missing or cannot be
      opened, otherwise the three fields, each with its default. */
  function ExtractMetadata(file: PdfFile): (m: Option<Metadata>)
    ensures m.Some? <==> file.Readable?
    ensures m.Some? ==> m.value == Metadata(Get(file.info, "title", "Unknown Title"),
                                            Get(file.info, "author", "Unknown Author"),
                                            Get(file.info, "creationDate", "Unknown Date"))
  {
    match file
    case Readable(info, _) =>
      Some(Metadata(Get(info, "title", "Unknown Title"), Get(info, "author", "Unknown Author"),
                    Get(info, "creationDate", "Unknown Date")))
    case _ => None
  }

  /** The pages' texts, each followed by a newline. */
  function Joined(pages: seq<string>): (text: string)
    ensures |text| >= |pages|
  {
    if pages == [] then [] else Joined(pages[..|pages| - 1]) + pages[|pages| - 1] + "\n"
  }

  /** extract_text_from_pdf's result for a file that exists (Some(pages))
      or does not (None): the text, or None when it is blank. */
  function TextOf(pages: Option<seq<string>>): Option<string> {
    if pages.None? then None
    else
      var text := Joined(pages.value);
      if Strip(text) == [] then None else Some(text)
  }

  /** The text is kept exactly when it is not all whitespace. */
  lemma TextOfBlank(pages: seq<string>)
    ensures TextOf(Some(pages)).None? <==> AllSpace(Joined(pages))
    ensures TextOf(Some(pages)).Some? ==> TextOf(Some(pages)).value == Joined(pages)
  {
    StripEmptyIffBlank(Joined(pages));
  }

  /** The text of a document is the texts of its parts, one after the
      other. */
  lemma {:induction false} JoinedAppend(front: seq<string>, back: seq<string>)
    ensures Joined(front + back) == Joined(front) + Joined(back)
    decreases |back|
  {
    if back == [] {
      assert front + back == front;
    } else {
      var last := |back| - 1;
      assert (front + back)[..|front + back| - 1] == front + back[..last];
      JoinedAppend(front, back[..last]);
    }
  }

  /** extract_text_from_pdf(pdf_path) */
  method ExtractText(pages: Option<seq<string>>) returns (text: Option<string>)
    ensures text == TextOf(pages)
  {
    if pages.None? {
      return None;
    }
    var doc := pages.value;
    var t := "";
    for i := 0 to |doc|
      invariant t == Joined(doc[..i])
    {
      assert doc[..i + 1][..i] == doc[..i];
      t := t + doc[i] + "\n";
    }
    assert doc[..|doc|] == doc;
    if Strip(t) == [] {
      return None;
    }
    return Some(t);
  }

  /** The pages of a file whose metadata could be read. */
  function PagesOf(file: PdfFile): Option<seq<string>> {
    if file.Readable? then Some(file.pages) else None
  }

  /** What the loop takes from a file before labelling it. */
  datatype Source = Source(metadata: Metadata, text: string)

  /** The checks ahead of labelling: the name ends in .pdf, the metadata
      can be read, and the text is not blank; otherwise the file is
      skipped. */
  function Read(name: string, file: PdfFile): (src: Option<Source>)
    ensures src.Some? <==> IsPdf(name) && ExtractMetadata(file).Some? && TextOf(PagesOf(file)).Some?
    ensures src.Some? ==> src.value == Source(ExtractMetadata(file).value, TextOf(PagesOf(file)).value)
  {
    if !IsPdf(name) then None
    else
      var metadata := ExtractMetadata(file);
      if metadata.None? then None
      else
        var text := TextOf(PagesOf(file));
        if text.None? then None else Some(Source(metadata.value, text.value))
  }

  /** A file reaches labelling exactly when its name ends in .pdf, it can
      be opened and its pages' text is not all whitespace; it then carries
      the file's metadata and that text. */
  lemma ReadIff(name: string, file: PdfFile)
    ensures Read(name, file).Some? <==> IsPdf(name) && file.Readable? && !AllSpace(Joined(file.pages))
    ensures Read(name, file).Some? ==>
      Read(name, file).value == Source(ExtractMetadata(file).value, Joined(file.pages))
  {
    if file.Readable? {
      TextOfBlank(file.pages);
    }
  }

  /** The checks at the head of the loop body, in the order the script
      makes them. */
  method ReadFile(name: string, file: PdfFile) returns (src: Option<Source>)
    ensures src == Read(name, file)
    ensures src.Some? <==> IsPdf(name) && file.Readable? && !AllSpace(Joined(file.pages))
    ensures src.Some? ==> src.value == Source(ExtractMetadata(file).value, Joined(file.pages))
  {
    ReadIff(name, file);
    if !IsPdf(name) {
      return None;
    }
    var metadata := ExtractMetadata(file);
    if metadata.None? {
      return None;
    }
    var text := ExtractText(PagesOf(file));
    if text.None? {
      return None;
    }
    return Some(Source(metadata.value, text.value));
  }

  /** What the loop's checks make of each name of the folder. */
  function ReadAll(files: string -> PdfFile): string -> Option<Source> {
    name => Read(name, files(name))
  }

  /** One insert_paper_into_db call. */
  datatype Insert = Insert(path: string, metadata: Metadata, labels: Option<seq<string>>)

  datatype IngestRun = IngestRun(inserts: seq<Insert>, events: seq<Event>, calls: nat)

  /** The folder loop over `names` with the service at call `served`;
      `read` says what the checks make of each name (ReadAll of the
      folder's files) and `step` what call_gemini_api makes of each
      reply. */
  function IngestSpec(step: nat -> Step, read: string -> Option<Source>, names: seq<string>, served: nat): IngestRun
    decreases |names|
  {
    if names == [] then IngestRun([], [], 0)
    else
      var src := read(names[0]);
      if src.None? then IngestSpec(step, read, names[1..], served)
      else
        var o := Label(step, src.value.text, served);
        var rest := IngestSpec(step, read, names[1..], served + o.calls);
        IngestRun([Insert(names[0], src.value.metadata, o.labels)] + rest.inserts,
                  o.events + [Sleep(PacingDelay)] + rest.events,
                  o.calls + rest.calls)
  }

  /** The table after the inserts, in order. */
  function Apply(table: map<string, Paper>, inserts: seq<Insert>): map<string, Paper>
    decreases |inserts|
  {
    if inserts == [] then table
    else
      var i := inserts[0];
      Apply(Upserted(table, i.path, i.metadata.title, i.metadata.author, i.metadata.publicationDate, i.labels),
            inserts[1..])
  }

  /** The folder loop past a skipped file. */
  lemma IngestSkips(step: nat -> Step, read: string -> Option<Source>, names: seq<string>, served: nat)
    requires names != [] && read(names[0]).None?
    ensures IngestSpec(step, read, names, served) == IngestSpec(step, read, names[1..], served)
  {
  }

  /** The folder loop past a stored file: its labelling, its insert and the
      pause, then the rest of the folder. */
  lemma IngestStores(step: nat -> Step, read: string -> Option<Source>, names: seq<string>, served: nat, src: Source)
    requires names != [] && read(names[0]) == Some(src)
    ensures var o := Label(step, src.text, served);
      var rest := IngestSpec(step, read, names[1..], served + o.calls);
      IngestSpec(step, read, names, served)
        == IngestRun([Insert(names[0], src.metadata, o.labels)] + rest.inserts,
                     o.events + [Sleep(PacingDelay)] + rest.events, o.calls + rest.calls)
  {
  }

  lemma ApplyFirst(table: map<string, Paper>, e: Insert, rest: seq<Insert>)
    ensures Apply(table, [e] + rest)
         == Apply(Upserted(table, e.path, e.metadata.title, e.metadata.author, e.metadata.publicationDate, e.labels), rest)
  {
    assert ([e] + rest)[1..] == rest;
  }

  function Paths(inserts: seq<Insert>): (paths: seq<string>)
    ensures |paths| == |inserts|
  {
    if inserts == [] then [] else [inserts[0].path] + Paths(inserts[1..])
  }

  /** The names that get stored, in listing order. */
  function StoredNames(read: string -> Option<Source>, names: seq<string>): seq<string> {
    if names == [] then []
    else (if read(names[0]).Some? then [names[0]] else []) + StoredNames(read, names[1..])
  }

  /** Every insert carries the metadata read at its path. */
  predicate FromFiles(inserts: seq<Insert>, read: string -> Option<Source>) {
    inserts == [] ||
    (read(inserts[0].path).Some? && read(inserts[0].path).value.metadata == inserts[0].metadata
     && FromFiles(inserts[1..], read))
  }

  /** Exactly the PDFs with readable metadata and non-blank text are
      inserted, once each, in listing order, and with the metadata read from
      the file: a labelling failure still inserts the paper. */
  lemma {:induction false} IngestInserts(step: nat -> Step, read: string -> Option<Source>, names: seq<string>, served: nat)
    ensures var run := IngestSpec(step, read, names, served);
      Paths(run.inserts) == StoredNames(read, names) && FromFiles(run.inserts, read)
    decreases |names|
  {
    if names != [] {
      var src := read(names[0]);
      if src.Some? {
        var o := Label(step, src.value.text, served);
        var run := IngestSpec(step, read, names, served);
        var rest := IngestSpec(step, read, names[1..], served + o.calls);
        IngestInserts(step, read, names[1..], served + o.calls);
        assert run.inserts == [Insert(names[0], src.value.metadata, o.labels)] + rest.inserts;
        assert run.inserts[1..] == rest.inserts;
      } else {
        IngestInserts(step, read, names[1..], served);
      }
    }
  }

  /** Every paper's labels are a list of exactly three or nothing. */
  predicate ThreeOrNone(inserts: seq<Insert>) {
    inserts == [] ||
    ((inserts[0].labels.None? || |inserts[0].labels.value| == LabelCount) && ThreeOrNone(inserts[1..]))
  }

  lemma {:induction false} IngestLabels(reply: nat -> Reply, parse: string -> Parsed,
                                        read: string -> Option<Source>, names: seq<string>, served: nat)
    ensures ThreeOrNone(IngestSpec(Steps(reply, parse), read, names, served).inserts)
    decreases |names|
  {
    var step := Steps(reply, parse);
    if names != [] {
      var src := read(names[0]);
      if src.Some? {
        var o := Label(step, src.value.text, served);
        var run := IngestSpec(step, read, names, served);
        var rest := IngestSpec(step, read, names[1..], served + o.calls);
        IngestLabels(reply, parse, read, names[1..], served + o.calls);
        LabelThree(reply, parse, src.value.text, served);
        assert run.inserts == [Insert(names[0], src.value.metadata, o.labels)] + rest.inserts;
        assert run.inserts[1..] == rest.inserts;
      } else {
        IngestLabels(reply, parse, read, names[1..], served);
      }
    }
  }

  /** Each stored paper costs at most five calls; skipped files cost none. */
  lemma {:induction false} IngestCallBound(step: nat -> Step, read: string -> Option<Source>, names: seq<string>, served: nat)
    ensures var run := IngestSpec(step, read, names, served);
      run.calls <= MaxAttempts * |run.inserts|
    decreases |names|
  {
    if names != [] {
      var src := read(names[0]);
      if src.Some? {
        var o := Label(step, src.value.text, served);
        var run := IngestSpec(step, read, names, served);
        var rest := IngestSpec(step, read, names[1..], served + o.calls);
        IngestCallBound(step, read, names[1..], served + o.calls);
        LabelCalls(step, Excerpt(src.value.text), served, 0);
        assert run.inserts == [Insert(names[0], src.value.metadata, o.labels)] + rest.inserts;
        assert run.calls == o.calls + rest.calls;
      } else {
        IngestCallBound(step, read, names[1..], served);
      }
    }
  }

  /** What a row made from `file` holds: the document's own title, author
      and creation date, each "Unknown ..." when the metadata dictionary
      lacks its key, and labels that are NULL or a list of exactly three,
      never an empty list. */
  predicate RowFrom(row: Paper, file: PdfFile) {
    && file.Readable?
    && row.title == (if "title" in file.info then file.info["title"] else "Unknown Title")
    && row.author == (if "author" in file.info then file.info["author"] else "Unknown Author")
    && row.publicationDate == (if "creationDate" in file.info then file.info["creationDate"] else "Unknown Date")
    && (row.labels.None? || |row.labels.value| == LabelCount)
  }

  /** A name the checks let through is listed and is a PDF. */
  lemma {:induction false} StoredNamesListed(read: string -> Option<Source>, names: seq<string>, x: string)
    requires x in StoredNames(read, names)
    ensures x in names && read(x).Some?
  {
    if names != [] && !(read(names[0]).Some? && x == names[0]) {
      StoredNamesListed(read, names[1..], x);
    }
  }

  /** The row an insert that comes from its file creates. */
  lemma NewRowFromFile(e: Insert, files: string -> PdfFile)
    requires Read(e.path, files(e.path)).Some? && Read(e.path, files(e.path)).value.metadata == e.metadata
    requires e.labels.None? || |e.labels.value| == LabelCount
    ensures RowFrom(Paper(e.metadata.title, e.metadata.author, e.metadata.publicationDate, StoredLabels(e.labels)),
                    files(e.path))
  {
    assert ExtractMetadata(files(e.path)).value == e.metadata;
  }

  /** New labels of three or none keep a row made from its file. */
  lemma RelabelledFromFile(row: Paper, file: PdfFile, labels: Option<seq<string>>)
    requires RowFrom(row, file) && (labels.None? || |labels.value| == LabelCount)
    ensures RowFrom(row.(labels := StoredLabels(labels)), file)
  {
  }

  /** One upsert of an insert that comes from the files keeps every row
      outside `base` made from its file, and keeps the metadata of every
      row already present. */
  lemma UpsertFromFile(table: map<string, Paper>, e: Insert, files: string -> PdfFile, base: set<string>)
    requires Read(e.path, files(e.path)).Some? && Read(e.path, files(e.path)).value.metadata == e.metadata
    requires e.labels.None? || |e.labels.value| == LabelCount
    requires forall p :: p in table && p !in base ==> RowFrom(table[p], files(p))
    ensures var t := Upserted(table, e.path, e.metadata.title, e.metadata.author, e.metadata.publicationDate, e.labels);
      && (forall p :: p in t && p !in base ==> RowFrom(t[p], files(p)))
      && (forall p :: p in table ==> p in t && t[p].title == table[p].title && t[p].author == table[p].author
                                     && t[p].publicationDate == table[p].publicationDate)
  {
    var t := Upserted(table, e.path, e.metadata.title, e.metadata.author, e.metadata.publicationDate, e.labels);
    UpsertedRows(table, e.path, e.metadata.title, e.metadata.author, e.metadata.publicationDate, e.labels);
    forall p | p in t && p !in base ensures RowFrom(t[p], files(p)) {
      if p != e.path {
      } else if p in table {
        RelabelledFromFile(table[p], files(p), e.labels);
      } else {
        NewRowFromFile(e, files);
      }
    }
  }

  /** The inserts of a run, applied in order, keep those two facts. */
  lemma {:induction false} ApplyFromFiles(table: map<string, Paper>, inserts: seq<Insert>,
                                          files: string -> PdfFile, base: set<string>)
    requires FromFiles(inserts, ReadAll(files)) && ThreeOrNone(inserts)
    requires forall p :: p in table && p !in base ==> RowFrom(table[p], files(p))
    ensures var t := Apply(table, inserts);
      && (forall p :: p in t <==> p in table || p in Paths(inserts))
      && (forall p :: p in t && p !in base ==> RowFrom(t[p], files(p)))
      && (forall p :: p in table ==> t[p].title == table[p].title && t[p].author == table[p].author
                                     && t[p].publicationDate == table[p].publicationDate)
    decreases |inserts|
  {
    if inserts != [] {
      var e := inserts[0];
      var next := Upserted(table, e.path, e.metadata.title, e.metadata.author, e.metadata.publicationDate, e.labels);
      UpsertFromFile(table, e, files, base);
      ApplyFromFiles(next, inserts[1..], files, base);
      UpsertedRows(table, e.path, e.metadata.title, e.metadata.author, e.metadata.publicationDate, e.labels);
    }
  }

  /** What a run of the folder loop leaves in the table: rows only for
      listed PDFs that passed the checks; every row it creates holds the
      file's title, author and creation date (or their "Unknown" defaults)
      and labels that are NULL or exactly three; every row already there
      keeps its title, author and date. */
  lemma IngestRows(reply: nat -> Reply, parse: string -> Parsed, files: string -> PdfFile,
                   names: seq<string>, served: nat, table: map<string, Paper>)
    ensures var run := IngestSpec(Steps(reply, parse), ReadAll(files), names, served);
      var t := Apply(table, run.inserts);
      && (forall p :: p in t && p !in table ==> p in names && IsPdf(p) && RowFrom(t[p], files(p)))
      && (forall p :: p in table ==> p in t && t[p].title == table[p].title && t[p].author == table[p].author
                                     && t[p].publicationDate == table[p].publicationDate)
  {
    var read := ReadAll(files);
    var run := IngestSpec(Steps(reply, parse), read, names, served);
    IngestInserts(Steps(reply, parse), read, names, served);
    IngestLabels(reply, parse, read, names, served);
    ApplyFromFiles(table, run.inserts, files, table.Keys);
    var t := Apply(table, run.inserts);
    forall p | p in t && p !in table ensures p in names && IsPdf(p) {
      StoredNamesListed(read, names, p);
    }
  }

  lemma Regroup(t: seq<Event>, a: seq<Event>, b: seq<Event>, c: seq<Event>)
    ensures t + a + b + c == t + (a + b + c)
  {
  }

  /** The values the table and the service reach at the end of the folder
      loop. */
  datatype IngestGoal = IngestGoal(rows: map<string, Paper>, trace: seq<Event>, served: nat)

  /** Storing the first file of `todo` moves the goal's description one
      file on: the row it upserts, the requests it makes and the pause come
      off the front of what is left to do. The state before is `rows`,
      `trace` and `n`; the primed values are the state after. */
  lemma GoalAfterStore(step: nat -> Step, read: string -> Option<Source>, todo: seq<string>,
                       src: Source, goal: IngestGoal,
                       rows: map<string, Paper>, trace: seq<Event>, n: nat,
                       rows': map<string, Paper>, trace': seq<Event>, n': nat)
    requires todo != [] && read(todo[0]) == Some(src)
    requires var pending := IngestSpec(step, read, todo, n);
      goal == IngestGoal(Apply(rows, pending.inserts), trace + pending.events, n + pending.calls)
    requires var o := Label(step, src.text, n);
      && rows' == Upserted(rows, todo[0], src.metadata.title, src.metadata.author,
                           src.metadata.publicationDate, o.labels)
      && trace' == trace + o.events + [Sleep(PacingDelay)]
      && n' == n + o.calls
    ensures var pending := IngestSpec(step, read, todo[1..], n');
      goal == IngestGoal(Apply(rows', pending.inserts), trace' + pending.events, n' + pending.calls)
  {
    var o := Label(step, src.text, n);
    IngestStores(step, read, todo, n, src);
    StoreStep(goal, Insert(todo[0], src.metadata, o.labels), o, IngestSpec(step, read, todo[1..], n'),
              rows, trace, n, rows', trace', n');
  }

  /** The same, over values: the loop's first insert, calls and events
      move from what is pending into the state. */
  lemma StoreStep(goal: IngestGoal, e: Insert, o: LabelOutcome, next: IngestRun,
                  rows: map<string, Paper>, trace: seq<Event>, n: nat,
                  rows': map<string, Paper>, trace': seq<Event>, n': nat)
    requires goal == IngestGoal(Apply(rows, [e] + next.inserts),
                                trace + (o.events + [Sleep(PacingDelay)] + next.events),
                                n + (o.calls + next.calls))
    requires && rows' == Upserted(rows, e.path, e.metadata.title, e.metadata.author,
                                  e.metadata.publicationDate, e.labels)
             && trace' == trace + o.events + [Sleep(PacingDelay)]
             && n' == n + o.calls
    ensures goal == IngestGoal(Apply(rows', next.inserts), trace' + next.events, n' + next.calls)
  {
    ApplyFirst(rows, e, next.inserts);
    Regroup(trace, o.events, [Sleep(PacingDelay)], next.events);
  }

  /** The current state followed by the folder loop over `todo` arrives at
      `goal`. */
  ghost predicate Heading(labeler: Labeler, table: PaperTable, read: string -> Option<Source>,
                          goal: IngestGoal, todo: seq<string>)
    reads labeler, labeler.env, table
  {
    && labeler.Linked()
    && var pending := IngestSpec(labeler.steps, read, todo, labeler.env.served);
    goal == IngestGoal(Apply(table.rows, pending.inserts), labeler.env.trace + pending.events,
                       labeler.env.served + pending.calls)
  }

  /** process_pdfs_in_folder(): `names` is the folder's listing and
      `files` what each name holds. */
  method IngestFolder(labeler: Labeler, table: PaperTable, names: seq<string>, files: string -> PdfFile)
    requires labeler.Linked()
    modifies labeler.env, table
    ensures var run := IngestSpec(labeler.steps, ReadAll(files), names, old(labeler.env.served));
      && table.rows == Apply(old(table.rows), run.inserts)
      && labeler.env.trace == old(labeler.env.trace) + run.events
      && labeler.env.served == old(labeler.env.served) + run.calls
  {
    ghost var read := ReadAll(files);
    ghost var run := IngestSpec(labeler.steps, read, names, labeler.env.served);
    ghost var goal := IngestGoal(Apply(table.rows, run.inserts), labeler.env.trace + run.events,
                                 labeler.env.served + run.calls);
    for i := 0 to |names|
      invariant Heading(labeler, table, read, goal, names[i..])
    {
      assert names[i..][1..] == names[i + 1..];
      var src := ReadFile(names[i], files(names[i]));
      IngestOne(labeler, table, read, goal, names[i..], src);
    }
    assert labeler.env.trace + [] == labeler.env.trace;
  }

  /** The body of the folder loop for the first name of `todo`, once the
      checks have made `src` of its file. */
  method IngestOne(labeler: Labeler, table: PaperTable, ghost read: string -> Option<Source>,
                   ghost goal: IngestGoal, todo: seq<string>, src: Option<Source>)
    requires todo != [] && src == read(todo[0]) && Heading(labeler, table, read, goal, todo)
    modifies labeler.env, table
    ensures Heading(labeler, table, read, goal, todo[1..])
  {
    if src.None? {
      IngestSkips(labeler.steps, read, todo, labeler.env.served);
    } else {
      Store(labeler, table, read, goal, todo, src.value);
    }
  }

  /** Labelling the paper, upserting its row and the pause. */
  method Store(labeler: Labeler, table: PaperTable, ghost read: string -> Option<Source>,
               ghost goal: IngestGoal, todo: seq<string>, paper: Source)
    requires todo != [] && read(todo[0]) == Some(paper) && Heading(labeler, table, read, goal, todo)
    modifies labeler.env, table
    ensures Heading(labeler, table, read, goal, todo[1..])
  {
    ghost var n, trace, rows := labeler.env.served, labeler.env.trace, table.rows;
    var labels := labeler.CallGemini(paper.text);
    table.Upsert(todo[0], paper.metadata.title, paper.metadata.author, paper.metadata.publicationDate, labels);
    labeler.env.Sleep(PacingDelay);
    GoalAfterStore(labeler.steps, read, todo, paper, goal, rows, trace, n,
                   table.rows, labeler.env.trace, labeler.env.served);
  }
}
