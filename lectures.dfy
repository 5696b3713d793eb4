// The lecture table (New/backend/database/models/lecture.py) and the vector
// index the retrieval processor writes to, as the two ingestion scripts see
// them. Timestamps are left out.
module Lectures {
  import opened Wrappers

  datatype Lecture = Lecture(id: int, title: string, content: string)

  /** One `process_lecture(lecture_id, content)` call: the text indexed under a lecture id. */
  datatype IndexEntry = IndexEntry(lectureId: int, text: string)

  /** `id` is the primary key. */
  predicate IdsUnique(rows: seq<Lecture>) {
    forall i, j :: 0 <= i < j < |rows| ==> rows[i].id != rows[j].id
  }

  /** The first row with the given id, if any. */
  function FindId(rows: seq<Lecture>, id: int): (r: Option<nat>)
    ensures r.Some? ==> r.value < |rows| && rows[r.value].id == id
                        && forall k :: 0 <= k < r.value ==> rows[k].id != id
    ensures r.None? ==> forall k :: 0 <= k < |rows| ==> rows[k].id != id
  {
    if rows == [] then None
    else if rows[0].id == id then Some(0)
    else
      var r := FindId(rows[1..], id);
      if r.None? then None else Some(r.value + 1)
  }

  /** The first row with the given title, if any (`.filter(Lecture.title == title).first()`). */
  function FindTitle(rows: seq<Lecture>, title: string): (r: Option<nat>)
    ensures r.Some? ==> r.value < |rows| && rows[r.value].title == title
                        && forall k :: 0 <= k < r.value ==> rows[k].title != title
    ensures r.None? ==> forall k :: 0 <= k < |rows| ==> rows[k].title != title
  {
    if rows == [] then None
    else if rows[0].title == title then Some(0)
    else
      var r := FindTitle(rows[1..], title);
      if r.None? then None else Some(r.value + 1)
  }
}
