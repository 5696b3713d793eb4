// The reindexing script (New/backend/scripts/reindex_lectures.py): the
// directory listing, sorted by name, is walked in order; the file at
// position i is indexed under lecture id i + 1 (the creator-information file
// with keyword padding around its text) and written to the lecture table,
// which is committed once at the end. The script's database write is
// modelled twice: as written (an UPDATE only) and as evidently intended (an
// update or an insert); the method uses the latter.
module ReindexLectures {
  import opened Wrappers
  import opened Lectures

  /**
   * A directory entry: its name, its text, whether reading it as UTF-8
   * succeeds, and whether the processor indexes it without raising.
   */
  datatype DirEntry = DirEntry(name: string, content: string, readOk: bool, indexOk: bool)

  const BoostedFile: string := "Lectures32.txt"

  /** The keyword block put before and after the creator-information text. */
  const Keywords: string :=
    "CREATOR INFORMATION. DEVELOPERS. WHO MADE THIS. WHO CREATED THIS APP. "
    + "APPLICATION CREATORS. DEVELOPMENT TEAM. TEAM MEMBERS. AUTHORS. "

  // ---------------------------------------------------------------- sorting

  /** Python's `str` ordering: lexicographic by code point, a proper prefix first. */
  predicate NameLe(a: string, b: string)
    decreases |a|
  {
    a == [] || (b != [] && (a[0] < b[0] || (a[0] == b[0] && NameLe(a[1..], b[1..]))))
  }

  lemma {:induction false} NameLeTotal(a: string, b: string)
    ensures NameLe(a, b) || NameLe(b, a)
    decreases |a|
  {
    if a != [] && b != [] && a[0] == b[0] {
      NameLeTotal(a[1..], b[1..]);
    }
  }

  predicate SortedByName(es: seq<DirEntry>) {
    forall k :: 0 <= k < |es| - 1 ==> NameLe(es[k].name, es[k + 1].name)
  }

  /** Inserts an entry before the first name it does not exceed. */
  function Insert(e: DirEntry, es: seq<DirEntry>): (r: seq<DirEntry>)
    ensures |r| == |es| + 1
    ensures r[0] == e || (es != [] && r[0] == es[0])
  {
    if es == [] then [e]
    else if NameLe(e.name, es[0].name) then [e] + es
    else [es[0]] + Insert(e, es[1..])
  }

  lemma {:induction false} InsertPermutes(e: DirEntry, es: seq<DirEntry>)
    ensures multiset(Insert(e, es)) == multiset(es) + multiset{e}
  {
    if es != [] && !NameLe(e.name, es[0].name) {
      InsertPermutes(e, es[1..]);
      assert es == [es[0]] + es[1..];
    }
  }

  lemma {:induction false} InsertSorted(e: DirEntry, es: seq<DirEntry>)
    requires SortedByName(es)
    ensures SortedByName(Insert(e, es))
  {
    if es != [] && !NameLe(e.name, es[0].name) {
      NameLeTotal(e.name, es[0].name);
      InsertSorted(e, es[1..]);
      var rest := Insert(e, es[1..]);
      var r := [es[0]] + rest;
      assert r == Insert(e, es);
      forall k | 0 <= k < |r| - 1 ensures NameLe(r[k].name, r[k + 1].name) {
        if k > 0 {
          assert r[k] == rest[k - 1] && r[k + 1] == rest[k];
        }
      }
    }
  }

  /** `sorted(os.listdir(...))`: the same entries, by name. */
  function SortByName(es: seq<DirEntry>): (r: seq<DirEntry>)
    ensures multiset(r) == multiset(es) && |r| == |es|
    ensures SortedByName(r)
  {
    if es == [] then []
    else
      var rest := SortByName(es[1..]);
      InsertPermutes(es[0], rest);
      InsertSorted(es[0], rest);
      assert es == [es[0]] + es[1..];
      Insert(es[0], rest)
  }

  // ------------------------------------------------------------- indexing

  /** The text handed to `process_lecture`: the creator file is padded with the keyword block on both sides. */
  function IndexedText(e: DirEntry): (t: string)
    ensures e.name == BoostedFile ==> t == Keywords + e.content + Keywords
    ensures e.name != BoostedFile ==> t == e.content
    ensures |t| == |e.content| + (if e.name == BoostedFile then 2 * |Keywords| else 0)
  {
    if e.name == BoostedFile then Keywords + e.content + Keywords else e.content
  }

  /** The padding can be cut away again: the indexed text holds the file's text exactly between the two blocks. */
  lemma BoostIsPadding(e: DirEntry)
    requires e.name == BoostedFile
    ensures var t := IndexedText(e);
            t[..|Keywords|] == Keywords && t[|t| - |Keywords|..] == Keywords
            && t[|Keywords|..|t| - |Keywords|] == e.content
  {
    var t := IndexedText(e);
    assert t == Keywords + e.content + Keywords;
  }

  /** The index entries for the sorted entries, the one at position k under id k + 1. */
  function IndexEntries(es: seq<DirEntry>): (r: seq<IndexEntry>)
  {
    if es == [] then []
    else IndexEntries(es[..|es| - 1]) + [IndexEntry(|es|, IndexedText(es[|es| - 1]))]
  }

  /** Entry k of the index holds id k + 1 and the text of the k-th file in name order. */
  lemma {:induction false} IndexEntriesByPosition(es: seq<DirEntry>)
    ensures |IndexEntries(es)| == |es|
    ensures forall k :: 0 <= k < |es| ==> IndexEntries(es)[k] == IndexEntry(k + 1, IndexedText(es[k]))
  {
    if es != [] {
      var init := es[..|es| - 1];
      IndexEntriesByPosition(init);
      forall k | 0 <= k < |es| - 1 ensures IndexEntries(es)[k] == IndexEntry(k + 1, IndexedText(es[k])) {
        assert es[k] == init[k];
      }
    }
  }

  // ------------------------------------------------------- database writes

  /**
   * As written (lines 64-73 and 79-88): `UPDATE lectures SET content WHERE
   * id`. An UPDATE that matches no row raises nothing, so the INSERT in the
   * `except` branch never runs: a missing id leaves the table as it was.
   */
  function UpdateOnly(rows: seq<Lecture>, id: int, content: string): seq<Lecture>
  {
    if rows == [] then []
    else [if rows[0].id == id then rows[0].(content := content) else rows[0]] + UpdateOnly(rows[1..], id, content)
  }

  /** The UPDATE changes the content of the rows with the id and nothing else, and adds no row. */
  lemma {:induction false} UpdateOnlyChangesContentOnly(rows: seq<Lecture>, id: int, content: string)
    ensures var r := UpdateOnly(rows, id, content);
            && |r| == |rows|
            && (forall k :: 0 <= k < |rows| ==> r[k].id == rows[k].id && r[k].title == rows[k].title)
            && (forall k :: 0 <= k < |rows| ==> r[k].content == (if rows[k].id == id then content else rows[k].content))
  {
    if rows != [] {
      UpdateOnlyChangesContentOnly(rows[1..], id, content);
      var r := UpdateOnly(rows, id, content);
      assert forall k :: 1 <= k < |rows| ==> r[k] == UpdateOnly(rows[1..], id, content)[k - 1];
    }
  }

  /**
   * As intended ("update database record if exists, otherwise create new"):
   * the row with the id gets the content; without one, a row with the id,
   * the file name as title and the content is added.
   */
  function Upsert(rows: seq<Lecture>, id: int, name: string, content: string): (r: seq<Lecture>)
    ensures FindId(rows, id).Some? ==> r == UpdateOnly(rows, id, content)
    ensures FindId(rows, id).None? ==> r == rows + [Lecture(id, name, content)]
    ensures |r| == |rows| + (if FindId(rows, id).Some? then 0 else 1)
  {
    if FindId(rows, id).Some? then
      UpdateOnlyChangesContentOnly(rows, id, content);
      UpdateOnly(rows, id, content)
    else rows + [Lecture(id, name, content)]
  }

  /** The table has a row with the id, and it holds the content. */
  predicate Holds(rows: seq<Lecture>, id: int, content: string) {
    FindId(rows, id).Some? && rows[FindId(rows, id).value].content == content
  }

  /** After the intended write, the table holds a row with the id and exactly that content, keys still unique. */
  lemma UpsertStores(rows: seq<Lecture>, id: int, name: string, content: string)
    requires IdsUnique(rows)
    ensures var r := Upsert(rows, id, name, content);
            && IdsUnique(r) && Holds(r, id, content)
            && forall k :: 0 <= k < |rows| && rows[k].id != id ==> r[k] == rows[k]
  {
    var r := Upsert(rows, id, name, content);
    if FindId(rows, id).None? {
      assert r[|rows|].id == id;
    } else {
      UpdateOnlyChangesContentOnly(rows, id, content);
      var i := FindId(rows, id).value;
      assert r[i].id == id;
    }
  }

  /** With unique keys, looking up a row's own id finds that row. */
  lemma FindIdOfUnique(rows: seq<Lecture>, i: nat)
    requires IdsUnique(rows) && i < |rows|
    ensures FindId(rows, rows[i].id) == Some(i)
  {
  }

  /** The table after all writes of a run, the entry at position k written under id k + 1. */
  function Rows(rows: seq<Lecture>, es: seq<DirEntry>): seq<Lecture>
  {
    if es == [] then rows
    else
      var e := es[|es| - 1];
      Upsert(Rows(rows, es[..|es| - 1]), |es|, e.name, e.content)
  }

  /** The same run with the writes as written. */
  function RowsAsWritten(rows: seq<Lecture>, es: seq<DirEntry>): seq<Lecture>
  {
    if es == [] then rows
    else UpdateOnly(RowsAsWritten(rows, es[..|es| - 1]), |es|, es[|es| - 1].content)
  }

  /** As written, reindexing into an empty table leaves it empty, whatever the files. */
  lemma {:induction false} AsWrittenNeverInserts(es: seq<DirEntry>)
    ensures RowsAsWritten([], es) == []
  {
    if es != [] {
      AsWrittenNeverInserts(es[..|es| - 1]);
    }
  }

  /** One file and an empty table: the index gains its entry, the table stays empty. */
  lemma AsWrittenLosesFirstLecture()
    ensures var es := [DirEntry("Lectures1.txt", "Intro", true, true)];
            IndexEntries(es) == [IndexEntry(1, "Intro")] && RowsAsWritten([], es) == []
  {
    AsWrittenNeverInserts([DirEntry("Lectures1.txt", "Intro", true, true)]);
  }

  /** A row under another id keeps its content through the intended write. */
  lemma UpsertKeepsOthers(rows: seq<Lecture>, id: int, name: string, content: string, other: int, c: string)
    requires IdsUnique(rows) && Holds(rows, other, c) && other != id
    ensures Holds(Upsert(rows, id, name, content), other, c)
  {
    UpsertStores(rows, id, name, content);
    var r := Upsert(rows, id, name, content);
    var i := FindId(rows, other).value;
    assert r[i] == rows[i];
    FindIdOfUnique(r, i);
  }

  /**
   * As intended, every file in name order has its row afterwards: id k + 1
   * holds the k-th file's own text (never the padded one), and keys stay unique.
   */
  lemma {:induction false} RowsStoreEachFile(rows: seq<Lecture>, es: seq<DirEntry>)
    requires IdsUnique(rows)
    ensures IdsUnique(Rows(rows, es))
    ensures forall k :: 0 <= k < |es| ==> Holds(Rows(rows, es), k + 1, es[k].content)
  {
    RowsUnique(rows, es);
    forall k | 0 <= k < |es| ensures Holds(Rows(rows, es), k + 1, es[k].content) {
      RowHolds(rows, es, k);
    }
  }

  /** The intended writes keep the keys unique. */
  lemma {:induction false} RowsUnique(rows: seq<Lecture>, es: seq<DirEntry>)
    requires IdsUnique(rows)
    ensures IdsUnique(Rows(rows, es))
  {
    if es != [] {
      var e := es[|es| - 1];
      RowsUnique(rows, es[..|es| - 1]);
      UpsertStores(Rows(rows, es[..|es| - 1]), |es|, e.name, e.content);
    }
  }

  /** The row of the file at position k holds that file's text after all the writes. */
  lemma {:induction false} RowHolds(rows: seq<Lecture>, es: seq<DirEntry>, k: nat)
    requires IdsUnique(rows) && k < |es|
    ensures Holds(Rows(rows, es), k + 1, es[k].content)
  {
    var init := es[..|es| - 1];
    var e := es[|es| - 1];
    var before := Rows(rows, init);
    RowsUnique(rows, init);
    if k == |es| - 1 {
      UpsertStores(before, |es|, e.name, e.content);
    } else {
      RowHolds(rows, init, k);
      assert init[k] == es[k];
      UpsertKeepsOthers(before, |es|, e.name, e.content, k + 1, es[k].content);
    }
  }

  /** With no row beforehand, the intended writes add exactly one row per file. */
  lemma {:induction false} RowsFromEmpty(es: seq<DirEntry>)
    ensures |Rows([], es)| == |es|
    ensures forall k :: 0 <= k < |es| ==> Rows([], es)[k] == Lecture(k + 1, es[k].name, es[k].content)
  {
    if es != [] {
      var init := es[..|es| - 1];
      RowsFromEmpty(init);
      var before := Rows([], init);
      assert FindId(before, |es|).None? by {
        forall k | 0 <= k < |before| ensures before[k].id != |es| {
          assert before[k] == Lecture(k + 1, init[k].name, init[k].content);
        }
      }
      forall k | 0 <= k < |es| - 1 ensures Rows([], es)[k] == Lecture(k + 1, es[k].name, es[k].content) {
        assert es[k] == init[k];
      }
    }
  }

  /** Taking one more file adds its index entry and its table write. */
  lemma OneMoreFile(rows: seq<Lecture>, files: seq<DirEntry>, i: nat)
    requires i < |files|
    ensures IndexEntries(files[..i + 1]) == IndexEntries(files[..i]) + [IndexEntry(i + 1, IndexedText(files[i]))]
    ensures Rows(rows, files[..i + 1]) == Upsert(Rows(rows, files[..i]), i + 1, files[i].name, files[i].content)
  {
    assert files[..i + 1][..i] == files[..i];
  }

  /** A file the loop gets through: it is read, and the processor does not raise on it. */
  predicate Completes(e: DirEntry) {
    e.readOk && e.indexOk
  }

  /** The first position whose file cannot be read or indexed, or the length when every file can. */
  function FirstFailedFile(es: seq<DirEntry>): (n: nat)
    ensures n <= |es|
    ensures forall k :: 0 <= k < n ==> Completes(es[k])
    ensures n < |es| ==> !Completes(es[n])
  {
    if es == [] then 0
    else if !Completes(es[0]) then 0
    else 1 + FirstFailedFile(es[1..])
  }

  /** A completing file at a position not past the first failure lies before it. */
  lemma CompletesBeforeFirst(files: seq<DirEntry>, i: nat)
    requires i < |files| && i <= FirstFailedFile(files) && Completes(files[i])
    ensures i < FirstFailedFile(files)
  {
  }

  class Reindexer {
    var rows: seq<Lecture>
    var index: seq<IndexEntry>

    ghost predicate Valid()
      reads this
    {
      IdsUnique(rows)
    }

    constructor(rows0: seq<Lecture>, index0: seq<IndexEntry>)
      requires IdsUnique(rows0)
      ensures Valid() && rows == rows0 && index == index0
    {
      rows, index := rows0, index0;
    }

    /**
     * main: the listing is sorted by name, then walked in that order.
     */
    method Reindex(listing: seq<DirEntry>) returns (ok: bool)
      requires Valid()
      modifies this
      ensures Valid()
      ensures var es := SortByName(listing);
              var n := FirstFailedFile(es);
              && (ok <==> n == |es|)
              && index == old(index) + IndexEntries(es[..n])
              && rows == (if ok then Rows(old(rows), es) else old(rows))
    {
      var files := SortByName(listing);
      ok := ReindexInOrder(files);
    }

    /**
     * The loop of main over the sorted files. Each file is indexed at once;
     * its table write waits for the single commit after the loop. A file
     * that cannot be read, or on which the processor raises, ends the loop
     * with an exception: the index keeps what was added before that file,
     * and the uncommitted writes are lost.
     */
    method ReindexInOrder(files: seq<DirEntry>) returns (ok: bool)
      requires Valid()
      modifies this
      ensures Valid()
      ensures ok <==> FirstFailedFile(files) == |files|
      ensures index == old(index) + IndexEntries(files[..FirstFailedFile(files)])
      ensures rows == (if ok then Rows(old(rows), files) else old(rows))
    {
      var pending := rows;
      ghost var n := FirstFailedFile(files);
      for i := 0 to |files|
        invariant i <= n
        invariant index == old(index) + IndexEntries(files[..i])
        invariant pending == Rows(old(rows), files[..i])
        invariant rows == old(rows)
      {
        var entry := files[i];
        if !entry.readOk {
          return false;
        }
        var lectureId := i + 1;
        if !entry.indexOk {
          return false;
        }
        CompletesBeforeFirst(files, i);
        OneMoreFile(old(rows), files, i);
        index := index + [IndexEntry(lectureId, IndexedText(entry))];
        pending := Upsert(pending, lectureId, entry.name, entry.content);
      }
      assert files[..|files|] == files;
      RowsUnique(old(rows), files);
      rows := pending;
      ok := true;
    }
  }
}
