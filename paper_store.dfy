/** The `papers` table of annotateToDb.py and insert_paper_into_db: rows
    keyed by their unique pdf_path; inserting a path that is already present
    updates only its labels. */
module PaperStore {
  import opened Service

  /** One row, without its key and its auto-increment id. `labels` is the
      JSON column: NULL, or the list the model gave. */
  datatype Paper = Paper(title: string, author: string, publicationDate: string,
                         labels: Option<seq<string>>)

  /** labels_str = json.dumps(labels) if labels else None: a missing or
      empty list is stored as NULL. */
  function StoredLabels(labels: Option<seq<string>>): (stored: Option<seq<string>>)
    ensures stored.None? <==> labels.None? || labels.value == []
    ensures stored.Some? ==> stored == labels
  {
    if labels.Some? && labels.value != [] then labels else None
  }

  /** INSERT ... ON DUPLICATE KEY UPDATE labels = ... */
  function Upserted(table: map<string, Paper>, path: string, title: string, author: string,
                    date: string, labels: Option<seq<string>>): map<string, Paper>
  {
    var stored := StoredLabels(labels);
    if path in table then table[path := table[path].(labels := stored)]
    else table[path := Paper(title, author, date, stored)]
  }

  /** The upsert adds the path if it is new, with the whole row; on a
      duplicate path it replaces only the labels; every other row stays. */
  lemma UpsertedRows(table: map<string, Paper>, path: string, title: string, author: string,
                     date: string, labels: Option<seq<string>>)
    ensures var t := Upserted(table, path, title, author, date, labels);
      && t.Keys == table.Keys + {path}
      && (path !in table ==> t[path] == Paper(title, author, date, StoredLabels(labels)))
      && (path in table ==> t[path] == table[path].(labels := StoredLabels(labels)))
      && (forall p :: p in table && p != path ==> t[p] == table[p])
  {
  }

  /** Upserting the same row twice leaves the table as upserting it once. */
  lemma UpsertIdempotent(table: map<string, Paper>, path: string, title: string, author: string,
                         date: string, labels: Option<seq<string>>)
    ensures var once := Upserted(table, path, title, author, date, labels);
      Upserted(once, path, title, author, date, labels) == once
  {
  }

  /** A present row keeps its title, author and date whatever is inserted
      for its path; only the labels follow the latest insertion. */
  lemma UpsertKeepsMetadata(table: map<string, Paper>, path: string, title: string, author: string,
                            date: string, labels: Option<seq<string>>)
    requires path in table
    ensures var row := Upserted(table, path, title, author, date, labels)[path];
      && row.title == table[path].title && row.author == table[path].author
      && row.publicationDate == table[path].publicationDate
      && row.labels == StoredLabels(labels)
  {
  }

  /** Upserts of different paths commute. */
  lemma UpsertsCommute(table: map<string, Paper>, p: string, tp: string, ap: string, dp: string,
                       lp: Option<seq<string>>, q: string, tq: string, aq: string, dq: string,
                       lq: Option<seq<string>>)
    requires p != q
    ensures Upserted(Upserted(table, p, tp, ap, dp, lp), q, tq, aq, dq, lq)
         == Upserted(Upserted(table, q, tq, aq, dq, lq), p, tp, ap, dp, lp)
  {
  }

  /** The table, as the script sees it through its connection. */
  class PaperTable {
    var rows: map<string, Paper>

    constructor (rows: map<string, Paper>)
      ensures this.rows == rows
    {
      this.rows := rows;
    }

    /** insert_paper_into_db(pdf_path, title, author, publication_date, labels) */
    method Upsert(path: string, title: string, author: string, date: string, labels: Option<seq<string>>)
      modifies this
      ensures rows == Upserted(old(rows), path, title, author, date, labels)
    {
      var stored: Option<seq<string>> := None;
      if labels.Some? && labels.value != [] {
        stored := labels;
      }
      if path in rows {
        rows := rows[path := rows[path].(labels := stored)];
      } else {
        rows := rows[path := Paper(title, author, date, stored)];
      }
    }
  }
}
