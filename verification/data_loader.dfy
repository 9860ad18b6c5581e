/** Dataset rows to indexable documents, and the sentence-aware text chunker
    (utils/data_loader.py). CSV reading is outside the model: a dataset file is
    given as its already-parsed rows, or `None` when it is missing or unreadable. */
module DataLoader {
  import opened Common
  import opened Strings
  import opened Seqs

  /** Metadata attached to a document; every value is already in its string form. */
  type Metadata = map<string, string>

  /** A document for the vector store; an empty `docId` means "no id given". */
  datatype Document = Document(content: string, metadata: Metadata, docId: string)

  /** One row of the question/answer dataset (the leading id column is unused). */
  datatype QaRow = QaRow(question: string, answer: string, intent: string)

  /** One row of the labelled statements dataset, after column selection. */
  datatype StatementRow = StatementRow(statement: string, status: string)

  const IntentPrefix := "Intent "
  const QaIdPrefix := "qa_"
  const StatementIdPrefix := "stmt_"

  /** Rows whose question starts with "Intent " summarise an intent and are not documents. */
  predicate IsIntentSummary(row: QaRow)
  {
    StartsWith(row.question, IntentPrefix)
  }

  /** The document built from the QA row at position `idx`. */
  function QaDocument(row: QaRow, idx: nat): Document
  {
    Document(
      "Question: " + row.question + "\nAnswer: " + row.answer,
      map["source" := "qa_dataset", "intent" := row.intent, "question" := row.question,
          "answer" := row.answer, "type" := "qa_pair"],
      QaIdPrefix + NatToString(idx))
  }

  /** The document built from the statement row at position `idx`. */
  function StatementDocument(row: StatementRow, idx: nat): Document
  {
    Document(
      row.statement,
      map["source" := "statements_dataset", "mental_health_status" := row.status, "type" := "statement"],
      StatementIdPrefix + NatToString(idx))
  }

  /** Ids of a document list, in order. */
  function DocIds(docs: seq<Document>): seq<string>
  {
    seq(|docs|, j requires 0 <= j < |docs| => docs[j].docId)
  }

  /** Positions from `i` on of the rows that are not intent summaries. */
  function KeptRows(rows: seq<QaRow>, i: nat): (ks: seq<nat>)
    requires i <= |rows|
    ensures forall p | 0 <= p < |ks| :: i <= ks[p] < |rows| && !IsIntentSummary(rows[ks[p]])
    decreases |rows| - i
  {
    if i == |rows| then []
    else if IsIntentSummary(rows[i]) then KeptRows(rows, i + 1)
    else [i] + KeptRows(rows, i + 1)
  }

  /** The kept positions are increasing and leave out no row that is not a summary. */
  lemma KeptRowsExactly(rows: seq<QaRow>, i: nat)
    requires i <= |rows|
    ensures Increasing(KeptRows(rows, i))
    ensures forall k | i <= k < |rows| && !IsIntentSummary(rows[k]) :: k in KeptRows(rows, i)
  {
    KeptRowsIncreasing(rows, i);
    KeptRowsComplete(rows, i);
  }

  lemma {:induction false} KeptRowsIncreasing(rows: seq<QaRow>, i: nat)
    requires i <= |rows|
    ensures Increasing(KeptRows(rows, i))
    decreases |rows| - i
  {
    if i < |rows| {
      KeptRowsIncreasing(rows, i + 1);
      var ks := KeptRows(rows, i);
      var ks1 := KeptRows(rows, i + 1);
      if !IsIntentSummary(rows[i]) {
        assert ks == [i] + ks1;
        forall p, q | 0 <= p < q < |ks| ensures ks[p] < ks[q] {
          assert ks[q] == ks1[q - 1] >= i + 1;
          if p > 0 {
            assert ks[p] == ks1[p - 1];
          }
        }
      } else {
        assert ks == ks1;
      }
    }
  }

  lemma {:induction false} KeptRowsComplete(rows: seq<QaRow>, i: nat)
    requires i <= |rows|
    ensures forall k | i <= k < |rows| && !IsIntentSummary(rows[k]) :: k in KeptRows(rows, i)
    decreases |rows| - i
  {
    if i < |rows| {
      KeptRowsComplete(rows, i + 1);
      var ks := KeptRows(rows, i);
      var ks1 := KeptRows(rows, i + 1);
      if !IsIntentSummary(rows[i]) {
        assert ks == [i] + ks1;
        forall k | i <= k < |rows| && !IsIntentSummary(rows[k]) ensures k in ks {
          if k > i {
            assert k in ks1;
          }
        }
      } else {
        assert ks == ks1;
      }
    }
  }

  /** Documents of the QA rows from position `i` on: intent summaries are skipped,
      every other row is kept, in row order, under the id of its own position. */
  function QaDocumentsFrom(rows: seq<QaRow>, i: nat): (r: seq<Document>)
    requires i <= |rows|
    ensures var ks := KeptRows(rows, i);
      |r| == |ks| && forall p | 0 <= p < |r| :: r[p] == QaDocument(rows[ks[p]], ks[p])
    decreases |rows| - i
  {
    if i == |rows| then []
    else
      var rest := QaDocumentsFrom(rows, i + 1);
      if IsIntentSummary(rows[i]) then rest
      else
        var r := [QaDocument(rows[i], i)] + rest;
        assert KeptRows(rows, i) == [i] + KeptRows(rows, i + 1);
        assert forall p | 0 < p < |r| :: r[p] == rest[p - 1];
        r
  }

  /** Each QA document comes from a row that is not a summary, under that row's index;
      every such row yields its document; no two documents share an id. */
  lemma QaDocumentsFromRows(rows: seq<QaRow>, i: nat)
    requires i <= |rows|
    ensures var r := QaDocumentsFrom(rows, i);
      forall d | d in r :: exists k :: i <= k < |rows| && !IsIntentSummary(rows[k]) && d == QaDocument(rows[k], k)
    ensures forall k | i <= k < |rows| && !IsIntentSummary(rows[k]) :: QaDocument(rows[k], k) in QaDocumentsFrom(rows, i)
    ensures Distinct(DocIds(QaDocumentsFrom(rows, i)))
  {
    var r := QaDocumentsFrom(rows, i);
    var ks := KeptRows(rows, i);
    KeptRowsExactly(rows, i);
    forall d | d in r ensures exists k :: i <= k < |rows| && !IsIntentSummary(rows[k]) && d == QaDocument(rows[k], k) {
      var p :| 0 <= p < |r| && r[p] == d;
      assert i <= ks[p] < |rows| && !IsIntentSummary(rows[ks[p]]);
    }
    forall k | i <= k < |rows| && !IsIntentSummary(rows[k]) ensures QaDocument(rows[k], k) in r {
      var p :| 0 <= p < |ks| && ks[p] == k;
      assert r[p] == QaDocument(rows[k], k);
    }
    forall p, q | 0 <= p < q < |r| ensures DocIds(r)[p] != DocIds(r)[q] {
      if DocIds(r)[p] == DocIds(r)[q] {
        assert r[p].docId == QaIdPrefix + NatToString(ks[p]);
        assert r[q].docId == QaIdPrefix + NatToString(ks[q]);
        PrefixCancel(QaIdPrefix, NatToString(ks[p]), NatToString(ks[q]));
        NatToStringInjective(ks[p], ks[q]);
      }
    }
  }

  /** The loaded QA documents are, in order, those of the kept rows: a document of an
      earlier row comes before a document of a later one. */
  lemma QaDocumentsInRowOrder(rows: seq<QaRow>, p: nat, q: nat)
    requires p < q < |QaDocumentsFrom(rows, 0)|
    ensures var ks := KeptRows(rows, 0);
      ks[p] < ks[q]
      && QaDocumentsFrom(rows, 0)[p] == QaDocument(rows[ks[p]], ks[p])
      && QaDocumentsFrom(rows, 0)[q] == QaDocument(rows[ks[q]], ks[q])
  {
    KeptRowsExactly(rows, 0);
  }

  /** `load_qa_dataset`: a missing or unreadable file gives no documents. */
  function LoadQaDataset(file: Option<seq<QaRow>>): seq<Document>
  {
    match file
    case None => []
    case Some(rows) => QaDocumentsFrom(rows, 0)
  }

  /** `load_statements_dataset`: every row becomes a document, none is skipped. */
  function LoadStatementsDataset(file: Option<seq<StatementRow>>): (r: seq<Document>)
    ensures file.Some? ==> |r| == |file.value|
    ensures file.Some? ==> forall k | 0 <= k < |r| :: r[k] == StatementDocument(file.value[k], k)
    ensures file.None? ==> r == []
  {
    match file
    case None => []
    case Some(rows) => seq(|rows|, k requires 0 <= k < |rows| => StatementDocument(rows[k], k))
  }

  /** `load_all_datasets`: the QA documents followed by the statement documents. */
  function LoadAllDatasets(qa: Option<seq<QaRow>>, statements: Option<seq<StatementRow>>): seq<Document>
  {
    LoadQaDataset(qa) + LoadStatementsDataset(statements)
  }

  /** Every loaded QA document comes from a non-summary row and every such row is loaded. */
  lemma QaRowsMapping(rows: seq<QaRow>)
    ensures forall d | d in LoadQaDataset(Some(rows)) ::
      exists k :: 0 <= k < |rows| && !IsIntentSummary(rows[k]) && d == QaDocument(rows[k], k)
    ensures forall k | 0 <= k < |rows| :: !IsIntentSummary(rows[k]) <==> QaDocument(rows[k], k) in LoadQaDataset(Some(rows))
  {
    var docs := LoadQaDataset(Some(rows));
    QaDocumentsFromRows(rows, 0);
    forall k | 0 <= k < |rows| && QaDocument(rows[k], k) in docs
      ensures !IsIntentSummary(rows[k])
    {
      var k' :| 0 <= k' < |rows| && !IsIntentSummary(rows[k']) && QaDocument(rows[k], k) == QaDocument(rows[k'], k');
      PrefixCancel(QaIdPrefix, NatToString(k), NatToString(k'));
      NatToStringInjective(k, k');
    }
  }

  /** No two documents loaded from both datasets share an id, so indexing them never
      drops one as a duplicate. */
  lemma LoadedIdsDistinct(qa: Option<seq<QaRow>>, statements: Option<seq<StatementRow>>)
    ensures Distinct(DocIds(LoadAllDatasets(qa, statements)))
  {
    var q := LoadQaDataset(qa);
    var s := LoadStatementsDataset(statements);
    if qa.Some? {
      QaDocumentsFromRows(qa.value, 0);
    }
    StatementIdsDistinct(statements);
    forall i, j | 0 <= i < |q| && 0 <= j < |s| ensures DocIds(q)[i] != DocIds(s)[j] {
      QaIdShape(qa, i);
      assert DocIds(s)[j][0] == 's';
    }
    DistinctConcat(DocIds(q), DocIds(s));
    assert DocIds(q + s) == DocIds(q) + DocIds(s);
  }

  /** Statement documents carry pairwise distinct ids. */
  lemma StatementIdsDistinct(statements: Option<seq<StatementRow>>)
    ensures Distinct(DocIds(LoadStatementsDataset(statements)))
  {
    var s := LoadStatementsDataset(statements);
    forall a, b | 0 <= a < b < |s| ensures s[a].docId != s[b].docId {
      if s[a].docId == s[b].docId {
        PrefixCancel(StatementIdPrefix, NatToString(a), NatToString(b));
        NatToStringInjective(a, b);
      }
    }
  }

  /** A QA document's id begins with the letter `q`. */
  lemma QaIdShape(qa: Option<seq<QaRow>>, i: nat)
    requires i < |LoadQaDataset(qa)|
    ensures |LoadQaDataset(qa)[i].docId| > 0 && LoadQaDataset(qa)[i].docId[0] == 'q'
  {
    var q := LoadQaDataset(qa);
    var rows := qa.value;
    var ks := KeptRows(rows, 0);
    assert q[i].docId == QaIdPrefix + NatToString(ks[i]);
  }

  // ---------------------------------------------------------------------------
  // chunk_text

  /** Sentence separators, in the order they are tried. */
  const Separators: seq<string> := [". ", "! ", "? ", "\n"]

  /** Cut point for a window `[start, end)`: just after the last occurrence in the window
      of the first separator (in priority order) that occurs there at all, else `end`. */
  function CutWithin(window: string, start: int, end: int, seps: seq<string>): int
  {
    if |seps| == 0 then end
    else
      var last := RFind(window, seps[0]);
      if last != -1 then start + last + |seps[0]| else CutWithin(window, start, end, seps[1..])
  }

  /** End of the chunk that begins at `start`: `start + size`, pulled back to a sentence
      boundary when the window does not reach the end of the text. */
  function CutEnd(text: string, start: nat, size: int): (end: int)
    requires size > 0
    ensures start < end <= start + size
    ensures start + size >= |text| ==> end == start + size
  {
    var end := start + size;
    if end < |text| then
      var e := CutWithin(text[start..end], start, end, Separators);
      CutWithinBounds(text[start..end], start, end, Separators);
      e
    else end
  }

  lemma {:induction false} CutWithinBounds(window: string, start: int, end: int, seps: seq<string>)
    requires end == start + |window| && |window| > 0
    requires forall k | 0 <= k < |seps| :: |seps[k]| > 0
    ensures start < CutWithin(window, start, end, seps) <= end
  {
    if |seps| > 0 && RFind(window, seps[0]) == -1 {
      CutWithinBounds(window, start, end, seps[1..]);
    }
  }

  /** The window of `size` characters starting at `start`. */
  function WindowAt(text: string, start: nat, size: int): string
    requires size > 0 && start + size <= |text|
  {
    text[start..start + size]
  }

  /** Skipping separators absent from the window leaves the cut unchanged. */
  lemma {:induction false} CutWithinSkips(window: string, start: int, end: int, seps: seq<string>, k: nat)
    requires k <= |seps|
    requires forall j | 0 <= j < k :: RFind(window, seps[j]) == -1
    ensures CutWithin(window, start, end, seps) == CutWithin(window, start, end, seps[k..])
  {
    if k > 0 {
      assert RFind(window, seps[0]) == -1;
      CutWithinSkips(window, start, end, seps[1..], k - 1);
      assert seps[1..][k - 1..] == seps[k..];
    }
  }

  /** The cut falls just after the last occurrence, in the window, of the first separator
      (in priority order) that appears there. */
  lemma CutFollowsFirstSeparator(text: string, start: nat, size: int, k: nat)
    requires size > 0 && start + size < |text|
    requires k < |Separators|
    requires exists i :: OccursAt(WindowAt(text, start, size), Separators[k], i)
    requires forall j, i | 0 <= j < k :: !OccursAt(WindowAt(text, start, size), Separators[j], i)
    ensures var p := CutEnd(text, start, size) - start - |Separators[k]|;
      && OccursAt(WindowAt(text, start, size), Separators[k], p)
      && forall q :: p < q ==> !OccursAt(WindowAt(text, start, size), Separators[k], q)
  {
    var w := WindowAt(text, start, size);
    CutWithinSkips(w, start, start + size, Separators, k);
  }

  /** With no separator in the window, the cut is at the full chunk size. */
  lemma CutWithoutSeparator(text: string, start: nat, size: int)
    requires size > 0 && start + size < |text|
    requires forall j, i | 0 <= j < |Separators| :: !OccursAt(WindowAt(text, start, size), Separators[j], i)
    ensures CutEnd(text, start, size) == start + size
  {
    var w := WindowAt(text, start, size);
    CutWithinSkips(w, start, start + size, Separators, |Separators|);
  }

  /** Next window start as the source computes it: `end - overlap`, which need not advance. */
  function SourceNextStart(text: string, start: nat, size: int, overlap: int): int
    requires size > 0
  {
    CutEnd(text, start, size) - overlap
  }

  /** Next window start with a progress guard: `end - overlap` when that advances,
      otherwise `end` (so consecutive windows never overlap backwards). */
  function NextStart(start: nat, end: int, overlap: int): (next: nat)
    requires start < end
    ensures next > start
    ensures end - overlap > start ==> next == end - overlap
    ensures overlap >= 0 ==> next <= end
  {
    if end - overlap > start then end - overlap else end
  }

  /** A chunk's window `[lo, hi)`; `hi` may run past the end of the text. */
  datatype Window = Window(lo: nat, hi: nat)

  /** The windows visited from `start` on, using the guarded step. */
  function Windows(text: string, size: int, overlap: int, start: nat): (r: seq<Window>)
    requires size > 0
    ensures forall j | 0 <= j < |r| :: start <= r[j].lo < |text| && r[j].lo < r[j].hi <= r[j].lo + size
    ensures start < |text| <==> |r| > 0
    ensures |r| > 0 ==> r[0].lo == start
    decreases |text| - start
  {
    if start >= |text| then []
    else
      var end := CutEnd(text, start, size);
      [Window(start, end)] + Windows(text, size, overlap, NextStart(start, end, overlap))
  }

  /** The windows are the loop's: each ends where the cut for its start falls, each
      next one starts where the step from the previous leads, and the step after the
      last leaves the text. */
  lemma {:induction false} WindowsChain(text: string, size: int, overlap: int, start: nat)
    requires size > 0
    ensures var r := Windows(text, size, overlap, start);
      && (forall j | 0 <= j < |r| :: r[j].hi == CutEnd(text, r[j].lo, size))
      && (forall j | 0 < j < |r| :: r[j].lo == NextStart(r[j - 1].lo, r[j - 1].hi, overlap))
      && (|r| > 0 ==> NextStart(r[|r| - 1].lo, r[|r| - 1].hi, overlap) >= |text|)
    decreases |text| - start
  {
    if start < |text| {
      var end := CutEnd(text, start, size);
      var next := NextStart(start, end, overlap);
      var rest := Windows(text, size, overlap, next);
      var r := Windows(text, size, overlap, start);
      WindowsChain(text, size, overlap, next);
      assert r == [Window(start, end)] + rest;
      forall j | 0 < j < |r| ensures r[j].lo == NextStart(r[j - 1].lo, r[j - 1].hi, overlap) {
        assert r[j] == rest[j - 1];
        if j > 1 {
          assert r[j - 1] == rest[j - 2];
        }
      }
    }
  }

  /** The text under a window, with the upper bound clamped as Python slicing does. */
  function WindowText(text: string, w: Window): string
    requires w.lo <= w.hi && w.lo <= |text|
  {
    text[w.lo..Min(w.hi, |text|)]
  }

  /** The chunk for one window: its text with surrounding whitespace stripped, a
      substring of the text no longer than the window. */
  function WindowChunk(text: string, w: Window): (r: string)
    requires w.lo < w.hi && w.lo <= |text|
    ensures r == Strip(WindowText(text, w))
    ensures |r| <= w.hi - w.lo
    ensures IsSubstring(text, r)
  {
    var s := WindowText(text, w);
    var r := Strip(s);
    var i :| OccursAt(s, r, i);
    Strings.OccursInSlice(text, w.lo, Min(w.hi, |text|), r, i);
    r
  }

  /** `chunk_text` with the progress guard: the whole text when it fits, otherwise the
      stripped text of each window, in order. */
  function ChunkText(text: string, size: int, overlap: int): (r: seq<string>)
    requires size > 0
    ensures |text| <= size ==> r == [text]
    ensures |text| > size ==> var ws := Windows(text, size, overlap, 0);
      |r| == |ws| && forall j | 0 <= j < |r| :: r[j] == Strip(WindowText(text, ws[j]))
    ensures forall j | 0 <= j < |r| :: |r[j]| <= size
    ensures forall j | 0 <= j < |r| :: IsSubstring(text, r[j])
  {
    if |text| <= size then
      var r := [text];
      assert OccursAt(text, r[0], 0);
      r
    else
      WindowChunks(text, Windows(text, size, overlap, 0))
  }

  /** The chunks of a list of windows, in order. */
  function WindowChunks(text: string, ws: seq<Window>): (r: seq<string>)
    requires forall j | 0 <= j < |ws| :: ws[j].lo < ws[j].hi && ws[j].lo <= |text|
    ensures |r| == |ws| && forall j | 0 <= j < |ws| :: r[j] == WindowChunk(text, ws[j])
  {
    seq(|ws|, j requires 0 <= j < |ws| => WindowChunk(text, ws[j]))
  }

  /** Some window holds position `p`. */
  predicate Covered(ws: seq<Window>, p: nat)
  {
    exists j :: 0 <= j < |ws| && ws[j].lo <= p < ws[j].hi
  }

  /** With a non-negative overlap the windows leave no gap: every position from `start`
      to the end of the text lies in some window. */
  lemma {:induction false} WindowsCover(text: string, size: int, overlap: int, start: nat)
    requires size > 0 && overlap >= 0
    ensures forall p | start <= p < |text| :: Covered(Windows(text, size, overlap, start), p)
    decreases |text| - start
  {
    if start < |text| {
      var end := CutEnd(text, start, size);
      var next := NextStart(start, end, overlap);
      var ws := Windows(text, size, overlap, start);
      var rest := Windows(text, size, overlap, next);
      assert ws == [Window(start, end)] + rest;
      WindowsCover(text, size, overlap, next);
      forall p | start <= p < |text| ensures Covered(ws, p) {
        if p < end {
          assert ws[0].lo <= p < ws[0].hi;
        } else {
          assert Covered(rest, p);
          var j :| 0 <= j < |rest| && rest[j].lo <= p < rest[j].hi;
          assert ws[j + 1] == rest[j];
        }
      }
    }
  }

  /** The chunker, as its windows: every character of a text longer than `size` lies in
      the window of some chunk when the overlap is non-negative. */
  lemma ChunkWindowsCoverText(text: string, size: int, overlap: int)
    requires size > 0 && overlap >= 0
    ensures forall p | 0 <= p < |text| :: Covered(Windows(text, size, overlap, 0), p)
  {
    WindowsCover(text, size, overlap, 0);
  }

  /** The input on which the source's loop stalls with its default sizes (500, 50):
      a sentence end at positions 100-101 and no other separator. */
  function StallingText(): string
  {
    Repeat('a', 100) + ". " + Repeat('a', 600)
  }

  /** With the default chunk size 500 and overlap 50, the source moves from start 0 to
      start 52 and then stays at 52 for ever, although 52 is inside the text. */
  lemma SourceChunkerStalls()
    ensures SourceNextStart(StallingText(), 0, 500, 50) == 52
    ensures SourceNextStart(StallingText(), 52, 500, 50) == 52
    ensures 52 < |StallingText()|
  {
    var t := StallingText();
    assert forall i | 0 <= i < 100 :: t[i] == 'a';
    assert t[100] == '.' && t[101] == ' ';
    assert forall i | 102 <= i < 702 :: t[i] == 'a';
    StallCut(t, 0, 100);
    StallCut(t, 52, 48);
  }

  /** In the stalling text, the window at `start` cuts right after the ". " at `start + off`. */
  lemma StallCut(t: string, start: nat, off: nat)
    requires t == StallingText() && start + off == 100 && start + 500 < |t|
    requires forall i | 0 <= i < 100 :: t[i] == 'a'
    requires t[100] == '.' && t[101] == ' '
    requires forall i | 102 <= i < 702 :: t[i] == 'a'
    ensures CutEnd(t, start, 500) == 102
  {
    var w := t[start..start + 500];
    assert w[off..off + 2] == ". ";
    assert OccursAt(w, ". ", off);
    forall q | off < q ensures !OccursAt(w, ". ", q) {
      if q + 2 <= |w| {
        assert w[q..q + 2][0] == w[q] == t[start + q];
      }
    }
    assert RFind(w, ". ") == off;
  }

  /** The guarded chunker does terminate on that input, and its first two windows are the
      ones the source visits before it stalls. */
  lemma GuardedChunkerAdvances()
    ensures var ws := Windows(StallingText(), 500, 50, 0);
      |ws| >= 2 && ws[0] == Window(0, 102) && ws[1].lo == 52 && ws[1].lo < ws[1].hi
  {
    var t := StallingText();
    assert forall i | 0 <= i < 100 :: t[i] == 'a';
    assert t[100] == '.' && t[101] == ' ';
    assert forall i | 102 <= i < 702 :: t[i] == 'a';
    StallCut(t, 0, 100);
    var ws := Windows(t, 500, 50, 0);
    assert ws[0] == Window(0, 102);
    assert NextStart(0, 102, 50) == 52;
  }
}
