// The bulk loader (New/backend/scripts/load_all_lectures.py): every `*.txt`
// lecture file, in the order the directory lists them, is upserted into the
// lecture table by title and handed to the retrieval index. A file whose
// reading or indexing fails is reported and skipped; the rest go on.
module LoadLectures {
  import opened Wrappers
  import opened TextUtil
  import opened Lectures

  /**
   * A listed file: its stem, its text, whether reading it as UTF-8 succeeds
   * and whether `process_lecture` on it returns normally.
   */
  datatype LectureFile = LectureFile(stem: string, content: string, readOk: bool, indexOk: bool)

  const TitleLimit: nat := 100

  /** A non-empty trimmed text starts with a character that is not whitespace. */
  lemma TrimmedStartsSolid(rt: Runtime, s: string)
    requires Trim(rt, s) != ""
    ensures !IsSpace(rt, Trim(rt, s)[0])
  {
    var a := TrimStart(rt, s);
    TrimStartSpec(rt, s);
    TrimEndSpec(rt, a);
    assert Trim(rt, s) == TrimEnd(rt, a) == a[..|TrimEnd(rt, a)|];
  }

  /** The first line of a non-empty stripped text starts with its first, non-space, character. */
  lemma FirstLineStartsSolid(content: string)
    ensures var stripped := Trim(Py, content);
            stripped != "" ==> var first := Prefix(FirstLine(stripped), TitleLimit);
                                first != "" && first[0] == stripped[0] && !IsSpace(Py, first[0])
  {
    var stripped := Trim(Py, content);
    if stripped != "" {
      TrimmedStartsSolid(Py, content);
      assert stripped[0] != '\n';
    }
  }

  /**
   * `content.strip().split('\n')[0][:100]`, or the file stem when that is
   * empty or whitespace. A title taken from the text is a non-empty start of
   * the stripped text, one line long, at most 100 characters, and begins
   * with a non-space character (so the `isspace()` test never fires on it);
   * it stops only at the 100-character limit, at the end of the text or
   * before a newline, so it is the whole first line cut to 100 characters.
   */
  function Title(content: string, stem: string): (t: string)
    ensures Trim(Py, content) == "" ==> t == stem
    ensures Trim(Py, content) != "" ==>
              && 0 < |t| <= TitleLimit && |t| <= |Trim(Py, content)| && t == Trim(Py, content)[..|t|]
              && '\n' !in t && !IsSpace(Py, t[0])
    ensures Trim(Py, content) != "" ==>
              |t| == TitleLimit || |t| == |Trim(Py, content)| || Trim(Py, content)[|t|] == '\n'
  {
    var stripped := Trim(Py, content);
    var first := Prefix(FirstLine(stripped), TitleLimit);
    FirstLineStartsSolid(content);
    if IsBlank(Py, first) then stem else first
  }

  /** The table and the index as the loop leaves them after some files, and `processed_count`. */
  datatype Run = Run(rows: seq<Lecture>, nextId: int, index: seq<IndexEntry>, processed: nat)

  /** The autoincrement key: every row's id is below the next one handed out. */
  predicate IdsBelow(rows: seq<Lecture>, nextId: int) {
    forall k :: 0 <= k < |rows| ==> rows[k].id < nextId
  }

  /**
   * The upsert of lines 51-70: a row with the title gets only its content
   * replaced; otherwise one row is appended with the next id. The result
   * carries the new rows, the next id and the id of the row written.
   */
  function Upsert(rows: seq<Lecture>, nextId: int, title: string, content: string): (r: (seq<Lecture>, int, int))
    ensures |r.0| == |rows| + (if FindTitle(rows, title).Some? then 0 else 1)
    ensures forall k :: 0 <= k < |rows| ==> r.0[k].id == rows[k].id && r.0[k].title == rows[k].title
    ensures forall k :: 0 <= k < |rows| && rows[k].title != title ==> r.0[k] == rows[k]
    ensures FindTitle(r.0, title).Some? && r.0[FindTitle(r.0, title).value].content == content
    ensures r.0[FindTitle(r.0, title).value].id == r.2
    ensures FindTitle(rows, title).None? ==> r.0[|rows|] == Lecture(nextId, title, content) && r.1 == nextId + 1
    ensures FindTitle(rows, title).Some? ==> r.1 == nextId
  {
    match FindTitle(rows, title)
    case Some(i) => (rows[i := rows[i].(content := content)], nextId, rows[i].id)
    case None =>
      var r := rows + [Lecture(nextId, title, content)];
      assert r[|rows|].title == title;
      (r, nextId + 1, nextId)
  }

  /** Upserting keeps the keys unique and below the next id. */
  lemma UpsertKeepsKeys(rows: seq<Lecture>, nextId: int, title: string, content: string)
    requires IdsUnique(rows) && IdsBelow(rows, nextId)
    ensures var r := Upsert(rows, nextId, title, content);
            IdsUnique(r.0) && IdsBelow(r.0, r.1)
  {
  }

  /** Upserting never makes a title appear twice. */
  lemma UpsertKeepsTitlesUnique(rows: seq<Lecture>, nextId: int, title: string, content: string)
    requires forall i, j :: 0 <= i < j < |rows| ==> rows[i].title != rows[j].title
    ensures var r := Upsert(rows, nextId, title, content).0;
            forall i, j :: 0 <= i < j < |r| ==> r[i].title != r[j].title
  {
  }

  /** One iteration of the loop over files. */
  function Step(run: Run, f: LectureFile): Run
  {
    if !f.readOk then run
    else
      var u := Upsert(run.rows, run.nextId, Title(f.content, f.stem), f.content);
      if !f.indexOk then run.(rows := u.0, nextId := u.1)
      else Run(u.0, u.1, run.index + [IndexEntry(u.2, f.content)], run.processed + 1)
  }

  /** The loop over the listed files, from a given state. */
  function Load(run: Run, files: seq<LectureFile>): Run
  {
    if files == [] then run else Step(Load(run, files[..|files| - 1]), files[|files| - 1])
  }

  /** Loading one more file is one more loop step. */
  lemma LoadOneMore(run: Run, files: seq<LectureFile>, k: nat)
    requires k < |files|
    ensures Load(run, files[..k + 1]) == Step(Load(run, files[..k]), files[k])
  {
    assert files[..k + 1][..k] == files[..k];
  }

  /** Whether a file goes all the way through the loop body. */
  predicate Completes(f: LectureFile) { f.readOk && f.indexOk }

  function CountCompleted(files: seq<LectureFile>): (n: nat)
    ensures n <= |files|
  {
    if files == [] then 0
    else CountCompleted(files[..|files| - 1]) + (if Completes(files[|files| - 1]) then 1 else 0)
  }

  /** `processed_count` counts exactly the files that completed, and every completed file left one index entry. */
  lemma {:induction false} LoadCounts(run: Run, files: seq<LectureFile>)
    ensures Load(run, files).processed == run.processed + CountCompleted(files)
    ensures |Load(run, files).index| == |run.index| + CountCompleted(files)
    ensures Load(run, files).index[..|run.index|] == run.index
  {
    if files != [] {
      LoadCounts(run, files[..|files| - 1]);
    }
  }

  /** The loop keeps the keys unique and below the next id. */
  lemma {:induction false} LoadKeepsKeys(run: Run, files: seq<LectureFile>)
    requires IdsUnique(run.rows) && IdsBelow(run.rows, run.nextId)
    ensures IdsUnique(Load(run, files).rows) && IdsBelow(Load(run, files).rows, Load(run, files).nextId)
  {
    if files != [] {
      var before := Load(run, files[..|files| - 1]);
      LoadKeepsKeys(run, files[..|files| - 1]);
      var f := files[|files| - 1];
      if f.readOk {
        UpsertKeepsKeys(before.rows, before.nextId, Title(f.content, f.stem), f.content);
      }
    }
  }

  /** A title present in the table stays present through later upserts. */
  lemma UpsertKeepsTitle(rows: seq<Lecture>, nextId: int, title: string, content: string, t: string)
    requires FindTitle(rows, t).Some?
    ensures FindTitle(Upsert(rows, nextId, title, content).0, t).Some?
  {
    var i := FindTitle(rows, t).value;
    var r := Upsert(rows, nextId, title, content).0;
    assert r[i].title == t;
  }

  /** After the loop, every file that was read has a row under its title, and no row was removed. */
  lemma {:induction false} LoadedTitlesPresent(run: Run, files: seq<LectureFile>)
    ensures |Load(run, files).rows| >= |run.rows|
    ensures forall k :: 0 <= k < |files| && files[k].readOk ==>
              FindTitle(Load(run, files).rows, Title(files[k].content, files[k].stem)).Some?
  {
    if files != [] {
      var init := files[..|files| - 1];
      var f := files[|files| - 1];
      var before := Load(run, init);
      LoadedTitlesPresent(run, init);
      forall k | 0 <= k < |files| && files[k].readOk
        ensures FindTitle(Load(run, files).rows, Title(files[k].content, files[k].stem)).Some?
      {
        if k < |files| - 1 {
          assert files[k] == init[k];
          if f.readOk {
            UpsertKeepsTitle(before.rows, before.nextId, Title(f.content, f.stem), f.content,
                             Title(files[k].content, files[k].stem));
          }
        }
      }
    }
  }

  /** A file with the title of an existing lecture replaces its content and adds no row. */
  lemma ReloadReplacesContent(run: Run, f: LectureFile)
    requires f.readOk && FindTitle(run.rows, Title(f.content, f.stem)).Some?
    ensures var i := FindTitle(run.rows, Title(f.content, f.stem)).value;
            && |Step(run, f).rows| == |run.rows|
            && Step(run, f).rows == run.rows[i := run.rows[i].(content := f.content)]
  {
  }

  class LectureLoader {
    var rows: seq<Lecture>
    var nextId: int
    var index: seq<IndexEntry>

    ghost predicate Valid()
      reads this
    {
      IdsUnique(rows) && IdsBelow(rows, nextId)
    }

    constructor(rows0: seq<Lecture>, nextId0: int, index0: seq<IndexEntry>)
      requires IdsUnique(rows0) && IdsBelow(rows0, nextId0)
      ensures Valid() && rows == rows0 && nextId == nextId0 && index == index0
    {
      rows, nextId, index := rows0, nextId0, index0;
    }

    /**
     * The body of the loop for one file: an unreadable file is skipped; a
     * read one is upserted by title and, when indexing returns normally,
     * indexed under its row's id and counted.
     */
    method LoadFile(f: LectureFile, processed: nat) returns (processedAfter: nat)
      requires Valid()
      modifies this
      ensures Valid()
      ensures Run(rows, nextId, index, processedAfter) == Step(Run(old(rows), old(nextId), old(index), processed), f)
    {
      processedAfter := processed;
      if f.readOk {
        var title := Title(f.content, f.stem);
        UpsertKeepsKeys(rows, nextId, title, f.content);
        var u := Upsert(rows, nextId, title, f.content);
        rows, nextId := u.0, u.1;
        if f.indexOk {
          index := index + [IndexEntry(u.2, f.content)];
          processedAfter := processed + 1;
        }
      }
    }

    /**
     * load_all_lectures: a missing directory or an empty listing returns at
     * once; otherwise each file takes one loop step, and the result is the
     * number of files that completed.
     */
    method LoadAllLectures(dirExists: bool, files: seq<LectureFile>) returns (processed: nat)
      requires Valid()
      modifies this
      ensures Valid()
      ensures !dirExists || files == [] ==>
                processed == 0 && rows == old(rows) && nextId == old(nextId) && index == old(index)
      ensures dirExists && files != [] ==>
                Run(rows, nextId, index, processed) == Load(Run(old(rows), old(nextId), old(index), 0), files)
    {
      if !dirExists || files == [] {
        return 0;
      }
      ghost var start := Run(rows, nextId, index, 0);
      processed := 0;
      for k := 0 to |files|
        invariant Valid()
        invariant Run(rows, nextId, index, processed) == Load(start, files[..k])
      {
        LoadOneMore(start, files, k);
        processed := LoadFile(files[k], processed);
      }
      assert files[..|files|] == files;
    }
  }
}
