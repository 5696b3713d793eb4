// The chat bubble's `formatMessageContent` (New/frontend/src/components/Message.jsx):
// a reply is cut into text parts and code parts in source order.
module Message {
  import opened Wrappers
  import opened TextUtil
  import opened Fences

  datatype Part = TextPart(content: string) | CodePart(language: string, content: string)

  /** How a scanned chunk is shown: code gets its tag and body trimmed. */
  function ToPart(c: Chunk): Part {
    match c
    case Plain(s) => TextPart(s)
    case Block(t, b) => CodePart(Trim(Js, t), Trim(Js, b))
  }

  function ToParts(cs: seq<Chunk>): (ps: seq<Part>)
    ensures |ps| == |cs|
    ensures forall k :: 0 <= k < |cs| ==> ps[k] == ToPart(cs[k])
  {
    seq(|cs|, k requires 0 <= k < |cs| => ToPart(cs[k]))
  }

  lemma ToPartsAppend(a: seq<Chunk>, b: seq<Chunk>, c: seq<Chunk>)
    ensures ToParts(a + b + c) == ToParts(a) + ToParts(b) + ToParts(c)
  {
  }

  /**
   * What formatMessageContent returns: null (None) for absent or empty text;
   * otherwise the parts of the scan with the bubble's letters-only tag class,
   * falling back to one text part holding the whole text when the scan yields
   * nothing.
   */
  function FormatSpec(text: Option<string>): (r: Option<seq<Part>>)
    ensures r.None? <==> (text.None? || text.value == "")
    ensures r.Some? ==> |r.value| > 0
  {
    if text.None? || text.value == "" then None
    else
      var ps := ToParts(Chunks(Letters, text.value, 0));
      Some(if ps == [] then [TextPart(text.value)] else ps)
  }

  /** The parts from `from` on: the gap's text part, the code part, then the rest. */
  lemma PartsStep(t: string, from: nat, f: Fence)
    requires from <= |t| && FindFrom(Letters, t, from) == Some(f)
    ensures f.End() <= |t|
    ensures ToParts(Chunks(Letters, t, from))
         == (if f.start > from then [TextPart(t[from..f.start])] else [])
            + [CodePart(Trim(Js, t[f.start + 3..f.tagEnd]), Trim(Js, t[f.tagEnd + 1..f.bodyEnd]))]
            + ToParts(Chunks(Letters, t, f.End()))
  {
    ChunksUnfold(Letters, t, from, f);
    var gap := if f.start > from then [Plain(t[from..f.start])] else [];
    var blk := Block(t[f.start + 3..f.tagEnd], t[f.tagEnd + 1..f.bodyEnd]);
    PartsOfPieces(gap, blk, Chunks(Letters, t, f.End()));
    if f.start > from {
      ToPartsSingle(Plain(t[from..f.start]));
    }
  }

  /** The parts of a gap, a block and the rest: the gap's parts, the block's code part, the rest's parts. */
  lemma PartsOfPieces(gap: seq<Chunk>, blk: Chunk, rest: seq<Chunk>)
    requires blk.Block?
    ensures ToParts(gap + [blk] + rest)
         == ToParts(gap) + [CodePart(Trim(Js, blk.tag), Trim(Js, blk.body))] + ToParts(rest)
  {
    ToPartsAppend(gap, [blk], rest);
    ToPartsSingle(blk);
  }

  lemma ToPartsSingle(c: Chunk)
    ensures ToParts([c]) == [ToPart(c)]
  {
  }

  /** The parts once no further match exists: the remaining text, if any. */
  lemma PartsTail(t: string, from: nat)
    requires from <= |t| && FindFrom(Letters, t, from).None?
    ensures ToParts(Chunks(Letters, t, from)) == if from < |t| then [TextPart(t[from..])] else []
  {
    ChunksTail(Letters, t, from);
  }

  lemma Regroup(a: seq<Part>, b: seq<Part>, c: seq<Part>, d: seq<Part>)
    ensures a + b + c + d == a + (b + c + d)
  {
  }

  /**
   * The loop of formatMessageContent: `codeBlockRegex.exec` is FindFrom from
   * the regex's lastIndex, which the loop keeps equal to its own `lastIndex`.
   */
  method FormatMessageContent(text: Option<string>) returns (parts: Option<seq<Part>>)
    ensures parts == FormatSpec(text)
  {
    if text.None? || text.value == "" {
      return None;
    }
    var t := text.value;
    ghost var all := ToParts(Chunks(Letters, t, 0));
    var ps: seq<Part> := [];
    var lastIndex := 0;
    var m := FindFrom(Letters, t, lastIndex);
    while m.Some?
      invariant lastIndex <= |t|
      invariant m == FindFrom(Letters, t, lastIndex)
      invariant ps + ToParts(Chunks(Letters, t, lastIndex)) == all
      decreases |t| - lastIndex
    {
      var f := m.value;
      PartsStep(t, lastIndex, f);
      ghost var rest := ToParts(Chunks(Letters, t, f.End()));
      var gap := if f.start > lastIndex then [TextPart(t[lastIndex..f.start])] else [];
      var code := CodePart(Trim(Js, t[f.start + 3..f.tagEnd]), Trim(Js, t[f.tagEnd + 1..f.bodyEnd]));
      Regroup(ps, gap, [code], rest);
      if f.start > lastIndex {
        ps := ps + [TextPart(t[lastIndex..f.start])];
      } else {
        assert ps + gap == ps;
      }
      ps := ps + [code];
      lastIndex := f.End();
      m := FindFrom(Letters, t, lastIndex);
    }
    PartsTail(t, lastIndex);
    if lastIndex < |t| {
      ps := ps + [TextPart(t[lastIndex..])];
    }
    assert ps == all;
    if |ps| == 0 {
      ps := [TextPart(t)];
    }
    parts := Some(ps);
  }

  /**
   * The text parts together with the raw fences they surround give back the
   * message exactly, in order; and no text part is empty.
   */
  lemma PartsCoverText(text: string)
    requires text != ""
    ensures FormatSpec(Some(text)) == Some(ToParts(Chunks(Letters, text, 0)))
    ensures Concat(Chunks(Letters, text, 0)) == text
    ensures forall k :: 0 <= k < |FormatSpec(Some(text)).value| ==>
              (FormatSpec(Some(text)).value[k].TextPart? ==> FormatSpec(Some(text)).value[k].content != "")
  {
    var cs := Chunks(Letters, text, 0);
    ChunksCover(Letters, text, 0);
    forall k | 0 <= k < |cs| ensures ToPart(cs[k]).TextPart? ==> ToPart(cs[k]).content != "" {
      assert WellFormed(Letters, cs[k]);
    }
  }

  /** A message with no complete ```tag\n...``` block is shown as one text part. */
  lemma NoBlockSinglePart(text: string)
    requires text != ""
    requires forall p :: 0 <= p <= |text| ==> MatchAt(Letters, text, p).None?
    ensures FormatSpec(Some(text)) == Some([TextPart(text)])
  {
    NoMatchOnePlain(Letters, text);
    assert ToParts([Plain(text)]) == [TextPart(text)];
  }

  /**
   * Each code part shows a letters-only language tag and the trimmed body
   * of its block; the block's raw text is ```tag\nbody``` with no ``` inside
   * the body (the block ends at the first closing fence).
   */
  lemma CodePartsAreTrimmedBlocks(text: string, k: nat)
    requires text != ""
    requires k < |Chunks(Letters, text, 0)| && Chunks(Letters, text, 0)[k].Block?
    ensures var c := Chunks(Letters, text, 0)[k];
            && FormatSpec(Some(text)).value[k] == CodePart(c.tag, Trim(Js, c.body))
            && (forall i :: 0 <= i < |c.tag| ==> IsAsciiLetter(c.tag[i]))
            && NoTicks(c.body)
  {
    var cs := Chunks(Letters, text, 0);
    ChunkWellFormed(Letters, text, k);
    assert FormatSpec(Some(text)).value == ToParts(cs);
    CodePartOf(cs, k);
  }

  /** The part shown for a well-formed block chunk: its tag as is and its body trimmed. */
  lemma CodePartOf(cs: seq<Chunk>, k: nat)
    requires k < |cs| && cs[k].Block? && WellFormed(Letters, cs[k])
    ensures ToParts(cs)[k] == CodePart(cs[k].tag, Trim(Js, cs[k].body))
    ensures forall i :: 0 <= i < |cs[k].tag| ==> IsAsciiLetter(cs[k].tag[i])
  {
    TrimLetters(cs[k].tag);
  }

  /** A letters-only tag has nothing to trim. */
  lemma TrimLetters(t: string)
    requires forall i :: 0 <= i < |t| ==> IsAsciiLetter(t[i])
    ensures Trim(Js, t) == t
  {
    if t != [] {
      assert IsAsciiLetter(t[0]) && IsAsciiLetter(t[|t| - 1]);
    }
    TrimOfTrimmed(Js, t);
  }
}
