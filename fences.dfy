// The fenced-code-block pattern shared by the chat bubble and the answer
// pipeline:  ``` TAG \n BODY ```  where TAG is a run of tag characters and
// BODY is matched lazily (it ends at the first closing ``` after the line feed).
// The front end uses /```([a-zA-Z]*)\n([\s\S]*?)```/g, the back end
// r"```[\w]*\n(.*?)```" with DOTALL; they differ only in the tag class.
// Both engines scan left to right and resume after each (non-empty) match,
// which is what FindFrom and Chunks below spell out.
module Fences {
  import opened Wrappers
  import opened TextUtil

  /** The character class of the language tag. */
  datatype TagClass = Letters | Word

  predicate IsTagChar(cls: TagClass, c: char) {
    match cls
    case Letters => IsAsciiLetter(c)
    case Word => IsWordChar(c)
  }

  /** Three backticks start at position i. */
  predicate TicksAt(text: string, i: int) {
    0 <= i && i + 3 <= |text| && text[i] == '`' && text[i + 1] == '`' && text[i + 2] == '`'
  }

  /**
   * One match of the pattern: the opening ``` at `start`, the tag in
   * text[start + 3..tagEnd], the line feed at `tagEnd`, the body in
   * text[tagEnd + 1..bodyEnd] and the closing ``` at `bodyEnd`.
   */
  datatype Fence = Fence(start: nat, tagEnd: nat, bodyEnd: nat) {
    function End(): nat { bodyEnd + 3 }
  }

  /**
   * f is a match of the pattern in text for tag class cls. The last conjunct is
   * laziness: no ``` starts inside the body, so the block closes at the first
   * closing fence.
   */
  predicate IsMatch(cls: TagClass, text: string, f: Fence) {
    && f.start + 3 <= f.tagEnd
    && f.tagEnd + 1 <= f.bodyEnd
    && f.bodyEnd + 3 <= |text|
    && TicksAt(text, f.start)
    && (forall k :: f.start + 3 <= k < f.tagEnd ==> IsTagChar(cls, text[k]))
    && text[f.tagEnd] == '\n'
    && TicksAt(text, f.bodyEnd)
    && (forall p :: f.tagEnd + 1 <= p < f.bodyEnd ==> !TicksAt(text, p))
  }

  /** The end of the longest run of tag characters from position i. */
  function TagRunEnd(cls: TagClass, text: string, i: nat): (j: nat)
    requires i <= |text|
    ensures i <= j <= |text|
    ensures forall k :: i <= k < j ==> IsTagChar(cls, text[k])
    ensures j == |text| || !IsTagChar(cls, text[j])
    decreases |text| - i
  {
    if i == |text| || !IsTagChar(cls, text[i]) then i else TagRunEnd(cls, text, i + 1)
  }

  /** The first position at or after i where ``` starts. */
  function NextTicks(text: string, i: nat): (k: Option<nat>)
    requires i <= |text|
    ensures k.Some? ==> (i <= k.value && TicksAt(text, k.value)
                         && forall p :: i <= p < k.value ==> !TicksAt(text, p))
    ensures k.None? ==> forall p :: i <= p ==> !TicksAt(text, p)
    decreases |text| - i
  {
    if i + 3 > |text| then None
    else if TicksAt(text, i) then Some(i)
    else NextTicks(text, i + 1)
  }

  /** The match of the pattern that starts exactly at position i, if any. */
  function MatchAt(cls: TagClass, text: string, i: nat): (m: Option<Fence>)
    requires i <= |text|
    ensures m.Some? ==> m.value.start == i && IsMatch(cls, text, m.value)
    ensures m.None? ==> forall f: Fence :: f.start == i ==> !IsMatch(cls, text, f)
  {
    if !TicksAt(text, i) then None
    else
      var j := TagRunEnd(cls, text, i + 3);
      if j < |text| && text[j] == '\n' then
        match NextTicks(text, j + 1)
        case None => NoMatchWithoutCloser(cls, text, i, j); None
        case Some(k) => Some(Fence(i, j, k))
      else
        NoMatchWithoutNewline(cls, text, i, j); None
  }

  lemma NoMatchWithoutNewline(cls: TagClass, text: string, i: nat, j: nat)
    requires i + 3 <= j <= |text|
    requires forall k :: i + 3 <= k < j ==> IsTagChar(cls, text[k])
    requires j == |text| || !IsTagChar(cls, text[j])
    requires !(j < |text| && text[j] == '\n')
    ensures forall f: Fence :: f.start == i ==> !IsMatch(cls, text, f)
  {
  }

  lemma NoMatchWithoutCloser(cls: TagClass, text: string, i: nat, j: nat)
    requires i + 3 <= j < |text| && text[j] == '\n'
    requires forall k :: i + 3 <= k < j ==> IsTagChar(cls, text[k])
    requires forall p :: j + 1 <= p ==> !TicksAt(text, p)
    ensures forall f: Fence :: f.start == i ==> !IsMatch(cls, text, f)
  {
  }

  /** Leftmost search: the first match starting at or after `from`. */
  function FindFrom(cls: TagClass, text: string, from: nat): (m: Option<Fence>)
    requires from <= |text|
    ensures m.Some? ==> (from <= m.value.start <= |text| && MatchAt(cls, text, m.value.start) == m
                         && forall p :: from <= p < m.value.start ==> MatchAt(cls, text, p).None?)
    ensures m.None? ==> forall p :: from <= p <= |text| ==> MatchAt(cls, text, p).None?
    decreases |text| - from
  {
    if from == |text| then None
    else
      match MatchAt(cls, text, from)
      case Some(f) => Some(f)
      case None => FindFrom(cls, text, from + 1)
  }

  /** A piece of the scanned text: the text between matches, or one match. */
  datatype Chunk = Plain(text: string) | Block(tag: string, body: string)

  /** The characters a chunk covers in the original text. */
  function Raw(c: Chunk): string {
    match c
    case Plain(s) => s
    case Block(t, b) => "```" + t + "\n" + b + "```"
  }

  function Concat(cs: seq<Chunk>): string {
    if cs == [] then "" else Raw(cs[0]) + Concat(cs[1..])
  }

  lemma ConcatAppend(a: seq<Chunk>, b: seq<Chunk>)
    ensures Concat(a + b) == Concat(a) + Concat(b)
  {
    if a != [] {
      assert (a + b)[0] == a[0];
      assert (a + b)[1..] == a[1..] + b;
      ConcatAppend(a[1..], b);
      assert Concat(a + b) == Raw(a[0]) + (Concat(a[1..]) + Concat(b));
    } else {
      assert a + b == b;
    }
  }

  /** No ``` lies wholly inside s. */
  predicate NoTicks(s: string) {
    forall p :: 0 <= p < |s| ==> !TicksAt(s, p)
  }

  /**
   * What a scan guarantees of each chunk: text between matches is never empty,
   * a tag consists of tag characters only, and a body holds no ```.
   */
  predicate WellFormed(cls: TagClass, c: Chunk) {
    match c
    case Plain(s) => s != ""
    case Block(t, b) => (forall k :: 0 <= k < |t| ==> IsTagChar(cls, t[k])) && NoTicks(b)
  }

  function BlockOf(text: string, f: Fence): Chunk
    requires f.start + 3 <= f.tagEnd && f.tagEnd + 1 <= f.bodyEnd <= |text|
  {
    Block(text[f.start + 3..f.tagEnd], text[f.tagEnd + 1..f.bodyEnd])
  }

  lemma BlockOfMatch(cls: TagClass, text: string, f: Fence)
    requires IsMatch(cls, text, f)
    ensures Raw(BlockOf(text, f)) == text[f.start..f.End()]
    ensures WellFormed(cls, BlockOf(text, f))
  {
    RawOfMatch(cls, text, f);
    var b := text[f.tagEnd + 1..f.bodyEnd];
    forall p | 0 <= p < |b| ensures TicksAt(b, p) ==> TicksAt(text, f.tagEnd + 1 + p) {
    }
  }

  lemma RawOfMatch(cls: TagClass, text: string, f: Fence)
    requires IsMatch(cls, text, f)
    ensures Raw(BlockOf(text, f)) == text[f.start..f.End()]
  {
    RawPieces(text, f.start, f.tagEnd, f.bodyEnd);
    var t, b := text[f.start + 3..f.tagEnd], text[f.tagEnd + 1..f.bodyEnd];
    assert BlockOf(text, f) == Block(t, b);
    assert Raw(Block(t, b)) == "```" + t + "\n" + b + "```";
  }

  lemma TicksSlice(text: string, i: nat)
    requires TicksAt(text, i)
    ensures text[i..i + 3] == "```"
  {
  }

  lemma RawPieces(text: string, start: nat, tagEnd: nat, bodyEnd: nat)
    requires start + 3 <= tagEnd && tagEnd + 1 <= bodyEnd && bodyEnd + 3 <= |text|
    requires TicksAt(text, start) && text[tagEnd] == '\n' && TicksAt(text, bodyEnd)
    ensures text[start..bodyEnd + 3]
         == "```" + text[start + 3..tagEnd] + "\n" + text[tagEnd + 1..bodyEnd] + "```"
  {
    TicksSlice(text, start);
    TicksSlice(text, bodyEnd);
    assert text[tagEnd..tagEnd + 1] == "\n";
    SliceSplit(text, start, start + 3, tagEnd);
    SliceSplit(text, start, tagEnd, tagEnd + 1);
    SliceSplit(text, start, tagEnd + 1, bodyEnd);
    SliceSplit(text, start, bodyEnd, bodyEnd + 3);
  }

  lemma SliceSplit(s: string, a: nat, b: nat, c: nat)
    requires a <= b <= c <= |s|
    ensures s[a..c] == s[a..b] + s[b..c]
  {
  }

  /**
   * The scan from position `from`: the chunks, in source order, that the
   * regex loop visits. Concatenating their raw text gives back the input, and
   * every chunk is well formed.
   */
  function Chunks(cls: TagClass, text: string, from: nat): seq<Chunk>
    requires from <= |text|
    decreases |text| - from
  {
    match FindFrom(cls, text, from)
    case None => if from < |text| then [Plain(text[from..])] else []
    case Some(f) =>
      var gap := if f.start > from then [Plain(text[from..f.start])] else [];
      gap + [BlockOf(text, f)] + Chunks(cls, text, f.End())
  }

  /**
   * The scan loses and invents nothing: its chunks concatenate back to the
   * text from `from` on, and every chunk is well formed.
   */
  lemma {:induction false} ChunksCover(cls: TagClass, text: string, from: nat)
    requires from <= |text|
    ensures Concat(Chunks(cls, text, from)) == text[from..]
    ensures forall k :: 0 <= k < |Chunks(cls, text, from)| ==> WellFormed(cls, Chunks(cls, text, from)[k])
    decreases |text| - from
  {
    match FindFrom(cls, text, from)
    case None =>
      ChunksTail(cls, text, from);
      if from < |text| {
        assert Concat([Plain(text[from..])]) == Raw(Plain(text[from..])) + Concat([]);
      }
    case Some(f) =>
      ChunksUnfold(cls, text, from, f);
      ChunksCover(cls, text, f.End());
      var gap := if f.start > from then [Plain(text[from..f.start])] else [];
      ChunksStep(cls, text, from, f, gap, Chunks(cls, text, f.End()));
  }

  /** One chunk of a scan from the start is well formed. */
  lemma ChunkWellFormed(cls: TagClass, text: string, k: nat)
    requires k < |Chunks(cls, text, 0)|
    ensures WellFormed(cls, Chunks(cls, text, 0)[k])
  {
    ChunksCover(cls, text, 0);
  }

  lemma ChunksStep(cls: TagClass, text: string, from: nat, f: Fence, gap: seq<Chunk>, rest: seq<Chunk>)
    requires from <= f.start && IsMatch(cls, text, f)
    requires gap == if f.start > from then [Plain(text[from..f.start])] else []
    requires Concat(rest) == text[f.End()..]
    requires forall k :: 0 <= k < |rest| ==> WellFormed(cls, rest[k])
    ensures Concat(gap + [BlockOf(text, f)] + rest) == text[from..]
    ensures forall k :: 0 <= k < |gap + [BlockOf(text, f)] + rest| ==> WellFormed(cls, (gap + [BlockOf(text, f)] + rest)[k])
  {
    var blk := BlockOf(text, f);
    BlockOfMatch(cls, text, f);
    ConcatStep(text, from, f.start, f.End(), gap, blk, rest);
    AllWellFormed(cls, gap, [blk]);
    AllWellFormed(cls, gap + [blk], rest);
  }

  lemma AllWellFormed(cls: TagClass, a: seq<Chunk>, b: seq<Chunk>)
    requires forall k :: 0 <= k < |a| ==> WellFormed(cls, a[k])
    requires forall k :: 0 <= k < |b| ==> WellFormed(cls, b[k])
    ensures forall k :: 0 <= k < |a + b| ==> WellFormed(cls, (a + b)[k])
  {
  }

  lemma ConcatStep(text: string, from: nat, start: nat, end: nat, gap: seq<Chunk>, blk: Chunk, rest: seq<Chunk>)
    requires from <= start <= end <= |text|
    requires gap == if start > from then [Plain(text[from..start])] else []
    requires Raw(blk) == text[start..end]
    requires Concat(rest) == text[end..]
    ensures Concat(gap + [blk] + rest) == text[from..]
  {
    ConcatAppend(gap + [blk], rest);
    ConcatAppend(gap, [blk]);
    ConcatSingle(blk);
    GapText(text, from, start, gap);
    SliceSplit3(text, from, start, end);
  }

  lemma ConcatSingle(c: Chunk)
    ensures Concat([c]) == Raw(c)
  {
    assert [c][1..] == [];
  }

  lemma GapText(text: string, from: nat, start: nat, gap: seq<Chunk>)
    requires from <= start <= |text|
    requires gap == if start > from then [Plain(text[from..start])] else []
    ensures Concat(gap) == text[from..start]
  {
    if start > from {
      ConcatSingle(Plain(text[from..start]));
    }
  }

  lemma SliceSplit3(s: string, a: nat, b: nat, c: nat)
    requires a <= b <= c <= |s|
    ensures s[a..] == s[a..b] + s[b..c] + s[c..]
  {
    SliceSplit(s, a, b, |s|);
    SliceSplit(s, b, c, |s|);
  }

  /** One step of the scan: the gap before the next match, the match, then the rest. */
  lemma ChunksUnfold(cls: TagClass, text: string, from: nat, f: Fence)
    requires from <= |text| && FindFrom(cls, text, from) == Some(f)
    ensures f.End() <= |text|
    ensures Chunks(cls, text, from)
         == (if f.start > from then [Plain(text[from..f.start])] else [])
            + [Block(text[f.start + 3..f.tagEnd], text[f.tagEnd + 1..f.bodyEnd])]
            + Chunks(cls, text, f.End())
  {
    FoundIsMatch(cls, text, from, f);
    var gap := if f.start > from then [Plain(text[from..f.start])] else [];
    assert BlockOf(text, f) == Block(text[f.start + 3..f.tagEnd], text[f.tagEnd + 1..f.bodyEnd]);
    assert Chunks(cls, text, from) == gap + [BlockOf(text, f)] + Chunks(cls, text, f.End());
  }

  /** What the leftmost search finds is a match at or after `from`. */
  lemma FoundIsMatch(cls: TagClass, text: string, from: nat, f: Fence)
    requires from <= |text| && FindFrom(cls, text, from) == Some(f)
    ensures from <= f.start && IsMatch(cls, text, f)
  {
    assert MatchAt(cls, text, f.start) == Some(f);
  }

  /** The end of the scan: the rest of the text, if any, is one plain chunk. */
  lemma ChunksTail(cls: TagClass, text: string, from: nat)
    requires from <= |text| && FindFrom(cls, text, from).None?
    ensures Chunks(cls, text, from) == if from < |text| then [Plain(text[from..])] else []
  {
  }

  /** Input with no match anywhere is one plain chunk (or none, when empty). */
  lemma NoMatchOnePlain(cls: TagClass, text: string)
    requires forall p :: 0 <= p <= |text| ==> MatchAt(cls, text, p).None?
    ensures Chunks(cls, text, 0) == if text == "" then [] else [Plain(text)]
  {
  }

  /** The scan yields a block exactly when some position holds a match. */
  lemma {:induction false} HasBlockIffMatch(cls: TagClass, text: string, from: nat)
    requires from <= |text|
    ensures (exists k :: 0 <= k < |Chunks(cls, text, from)| && Chunks(cls, text, from)[k].Block?)
        <==> FindFrom(cls, text, from).Some?
  {
    var cs := Chunks(cls, text, from);
    match FindFrom(cls, text, from)
    case None =>
      ChunksTail(cls, text, from);
      assert forall k :: 0 <= k < |cs| ==> cs[k].Plain?;
    case Some(f) =>
      ChunksUnfold(cls, text, from, f);
      var gap := if f.start > from then [Plain(text[from..f.start])] else [];
      assert cs[|gap|].Block?;
  }

  /**
   * Every match of the letters-only pattern is also a match of the word-class
   * pattern at the same place, with the same tag and body.
   */
  lemma LettersMatchIsWordMatch(text: string, i: nat)
    requires i <= |text| && MatchAt(Letters, text, i).Some?
    ensures MatchAt(Word, text, i) == MatchAt(Letters, text, i)
  {
    var f := MatchAt(Letters, text, i).value;
    assert IsMatch(Word, text, f);
    var h := MatchAt(Word, text, i).value;
    MatchUnique(Word, text, f, h);
  }

  /** A match is determined by where it starts: the tag run and the lazy body leave no choice. */
  lemma MatchUnique(cls: TagClass, text: string, f: Fence, h: Fence)
    requires IsMatch(cls, text, f) && IsMatch(cls, text, h) && f.start == h.start
    ensures f == h
  {
  }

  /**
   * The two patterns are not the same: a tag with a digit is a block for the
   * back end and plain text for the chat bubble.
   */
  lemma TagClassesDiffer()
    ensures MatchAt(Word, "```py3\nx```", 0).Some?
    ensures MatchAt(Letters, "```py3\nx```", 0).None?
  {
    var text := "```py3\nx```";
    assert TicksAt(text, 8);
    assert IsMatch(Word, text, Fence(0, 6, 8));
    assert text[5] == '3';
    assert TagRunEnd(Letters, text, 5) == 5;
    assert TagRunEnd(Letters, text, 3) == 5;
  }
}
