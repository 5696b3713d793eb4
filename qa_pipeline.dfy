// The answer pipeline of New/backend/qa/pipeline.py: canned answers for a few
// questions, the "no context" fallback, the confidence score, and the
// code-block stripping that prepares the spoken version of an answer.
// The retrieval step, the language model and text-to-speech are foreign
// calls; their outcomes are parameters.
module QaPipeline {
  import opened Wrappers
  import opened TextUtil
  import opened Fences

  const Placeholder: string := "I've included a code example in my response which you can see below."

  const NameAnswer: string :=
    "I am the virtual model of Dr. Terry Soule, a Professor of Computer Science at the University of Idaho, where I also hold adjunct positions in Neuroscience and in Bioinformatics and Computational Biology. While my 3D visual model is still in development, I'm here to assist you verbally with computer science-related topics."
  const RoleAnswer: string :=
    "I am the virtual model of Dr. Terry Soule, here to assist you with computer science-related topics. My 3D visual model is in progress, but right now, I am here to help you verbally."

  /** The predefined responses, in the dictionary's insertion order. */
  const Predefined: seq<(string, string)> := [
    ("what is your name?", NameAnswer),
    ("what do you do?", RoleAnswer),
    ("tell me about yourself?", RoleAnswer)
  ]

  const NoContextAnswer: string :=
    "I don't have enough information in my knowledge base to answer this question. Please make sure your question is related to Computer Science, as that's my area of expertise."
  const ErrorAnswer: string :=
    "I encountered an error while processing your question. Please try again with a Computer Science related question."
  const AudioPrefix: string := "/api/audio/responses/"

  // ---------------------------------------------------------------- code blocks

  /** The spoken text: every block replaced by the placeholder sentence. */
  function Speak(cs: seq<Chunk>): string {
    if cs == [] then ""
    else (match cs[0] case Plain(s) => s case Block(_, _) => Placeholder) + Speak(cs[1..])
  }

  /** The bodies of the blocks, in order (what `re.findall` returns for the one group). */
  function Bodies(cs: seq<Chunk>): (bs: seq<string>)
    ensures bs == [] <==> forall k :: 0 <= k < |cs| ==> cs[k].Plain?
  {
    if cs == [] then []
    else
      var rest := Bodies(cs[1..]);
      assert forall k :: 1 <= k < |cs| ==> cs[k] == cs[1..][k - 1];
      (match cs[0] case Plain(_) => [] case Block(_, b) => [b]) + rest
  }

  lemma {:induction false} SpeakAllPlain(cs: seq<Chunk>)
    requires forall k :: 0 <= k < |cs| ==> cs[k].Plain?
    ensures Speak(cs) == Concat(cs)
  {
    if cs != [] {
      assert forall k :: 0 <= k < |cs[1..]| ==> cs[1..][k] == cs[k + 1];
      SpeakAllPlain(cs[1..]);
    }
  }

  /**
   * `_extract_code_blocks`: the speech text and the block bodies. With no
   * block anywhere the text comes back unchanged and the list is empty; a
   * non-empty list means some position holds a complete block.
   */
  function ExtractCodeBlocks(text: string): (r: (string, seq<string>))
    ensures r.1 == [] <==> forall p :: 0 <= p <= |text| ==> MatchAt(Word, text, p).None?
    ensures r.1 == [] ==> r.0 == text
  {
    var cs := Chunks(Word, text, 0);
    HasBlockIffMatch(Word, text, 0);
    if Bodies(cs) == [] then
      SpeakAllPlain(cs);
      (Speak(cs), Bodies(cs))
    else (Speak(cs), Bodies(cs))
  }

  /**
   * Block k of the scan contributes body k, and that body holds no ```; the
   * block positions increase, so the bodies come in the order of the text.
   */
  lemma BodiesInOrder(cs: seq<Chunk>, cls: TagClass)
    requires forall k :: 0 <= k < |cs| ==> WellFormed(cls, cs[k])
    ensures |Bodies(cs)| == |BlockIndices(cs)|
    ensures forall i, j :: 0 <= i < j < |BlockIndices(cs)| ==> BlockIndices(cs)[i] < BlockIndices(cs)[j]
    ensures forall j :: 0 <= j < |Bodies(cs)| ==>
              BlockIndices(cs)[j] < |cs| && cs[BlockIndices(cs)[j]].Block?
              && Bodies(cs)[j] == cs[BlockIndices(cs)[j]].body && NoTicks(Bodies(cs)[j])
  {
    BodiesLength(cs, 0);
    IndicesIncrease(cs, 0);
    forall j | 0 <= j < |Bodies(cs)|
      ensures BlockIndices(cs)[j] < |cs| && cs[BlockIndices(cs)[j]].Block?
              && Bodies(cs)[j] == cs[BlockIndices(cs)[j]].body && NoTicks(Bodies(cs)[j])
    {
      BodyAt(cs, cls, 0, j);
    }
  }

  lemma {:induction false} BodiesLength(cs: seq<Chunk>, offset: nat)
    ensures |Bodies(cs)| == |BlockIndicesFrom(cs, offset)|
  {
    if cs != [] {
      BodiesLength(cs[1..], offset + 1);
    }
  }

  /** The j-th body is the body of the j-th block, and holds no fence. */
  lemma {:induction false} BodyAt(cs: seq<Chunk>, cls: TagClass, offset: nat, j: nat)
    requires forall k :: 0 <= k < |cs| ==> WellFormed(cls, cs[k])
    requires j < |Bodies(cs)|
    ensures j < |BlockIndicesFrom(cs, offset)|
    ensures var i := BlockIndicesFrom(cs, offset)[j];
            && offset <= i < offset + |cs| && cs[i - offset].Block?
            && Bodies(cs)[j] == cs[i - offset].body && NoTicks(Bodies(cs)[j])
  {
    var t := cs[1..];
    var head := if cs[0].Block? then 1 else 0;
    BodiesLength(t, offset + 1);
    IndexStep(cs, offset, j);
    if j < head {
      assert WellFormed(cls, cs[0]);
    } else {
      TailWellFormed(cs, cls);
      BodyAt(t, cls, offset + 1, j - head);
      var i := BlockIndicesFrom(t, offset + 1)[j - head];
      assert cs[i - offset] == t[i - offset - 1];
    }
  }

  /** One step of Bodies and BlockIndicesFrom: the first chunk's part, then the rest's. */
  lemma IndexStep(cs: seq<Chunk>, offset: nat, j: nat)
    requires cs != [] && j < |Bodies(cs)|
    requires |Bodies(cs[1..])| == |BlockIndicesFrom(cs[1..], offset + 1)|
    ensures var head := if cs[0].Block? then 1 else 0;
            && |Bodies(cs)| == head + |Bodies(cs[1..])| == |BlockIndicesFrom(cs, offset)|
            && (j < head ==> BlockIndicesFrom(cs, offset)[j] == offset && Bodies(cs)[j] == cs[0].body)
            && (head <= j ==> BlockIndicesFrom(cs, offset)[j] == BlockIndicesFrom(cs[1..], offset + 1)[j - head]
                              && Bodies(cs)[j] == Bodies(cs[1..])[j - head])
  {
    BodiesStep(cs);
    assert BlockIndicesFrom(cs, offset)
        == (if cs[0].Block? then [offset] else []) + BlockIndicesFrom(cs[1..], offset + 1);
  }

  lemma BodiesStep(cs: seq<Chunk>)
    requires cs != []
    ensures Bodies(cs) == (if cs[0].Block? then [cs[0].body] else []) + Bodies(cs[1..])
  {
    match cs[0]
    case Plain(_) =>
    case Block(_, b) =>
  }

  lemma TailWellFormed(cs: seq<Chunk>, cls: TagClass)
    requires cs != [] && forall k :: 0 <= k < |cs| ==> WellFormed(cls, cs[k])
    ensures forall k :: 0 <= k < |cs[1..]| ==> WellFormed(cls, cs[1..][k])
  {
    assert forall k :: 0 <= k < |cs[1..]| ==> cs[1..][k] == cs[k + 1];
  }



  /** Positions of the blocks in a chunk list, counted from `offset`. */
  function BlockIndicesFrom(cs: seq<Chunk>, offset: nat): seq<nat>
  {
    if cs == [] then []
    else (if cs[0].Block? then [offset] else []) + BlockIndicesFrom(cs[1..], offset + 1)
  }

  /** Positions of the blocks in a chunk list. */
  function BlockIndices(cs: seq<Chunk>): seq<nat> {
    BlockIndicesFrom(cs, 0)
  }

  /** The positions lie within the list and increase. */
  lemma {:induction false} IndicesIncrease(cs: seq<Chunk>, offset: nat)
    ensures forall j :: 0 <= j < |BlockIndicesFrom(cs, offset)| ==>
              offset <= BlockIndicesFrom(cs, offset)[j] < offset + |cs|
    ensures forall i, j :: 0 <= i < j < |BlockIndicesFrom(cs, offset)| ==>
              BlockIndicesFrom(cs, offset)[i] < BlockIndicesFrom(cs, offset)[j]
  {
    if cs != [] {
      IndicesIncrease(cs[1..], offset + 1);
    }
  }


  /** The speech text has one placeholder per block, in place of the block. */
  lemma {:induction false} SpeechReplacesEachBlock(cs: seq<Chunk>)
    ensures Speak(cs) == Concat(Voiced(cs))
    ensures |Voiced(cs)| == |cs|
    ensures forall k :: 0 <= k < |cs| ==>
              Voiced(cs)[k] == (if cs[k].Block? then Plain(Placeholder) else cs[k])
  {
    if cs != [] {
      SpeechReplacesEachBlock(cs[1..]);
      assert Voiced(cs)[1..] == Voiced(cs[1..]);
    }
  }

  function Voiced(cs: seq<Chunk>): seq<Chunk> {
    seq(|cs|, k requires 0 <= k < |cs| => if cs[k].Block? then Plain(Placeholder) else cs[k])
  }

  // ---------------------------------------------------------------- confidence

  function Min(a: real, b: real): real { if a <= b then a else b }

  /**
   * `_calculate_confidence`: 0 with no documents; otherwise
   * (min(n/3, 1) * 0.7 + min(len/500, 1) * 0.3) * 0.8, which lies in (0, 0.8].
   */
  function Confidence(docCount: nat, answerLength: nat): (c: real)
    ensures docCount == 0 ==> c == 0.0
    ensures docCount > 0 ==> 0.0 < c <= 0.8
  {
    if docCount == 0 then 0.0
    else (Min(docCount as real / 3.0, 1.0) * 0.7 + Min(answerLength as real / 500.0, 1.0) * 0.3) * 0.8
  }

  /** More documents or a longer answer never lower the score. */
  lemma ConfidenceMonotone(n1: nat, n2: nat, l1: nat, l2: nat)
    requires n1 <= n2 && l1 <= l2
    ensures Confidence(n1, l1) <= Confidence(n2, l2)
  {
    if n1 > 0 {
      assert n1 as real / 3.0 <= n2 as real / 3.0;
      assert l1 as real / 500.0 <= l2 as real / 500.0;
    }
  }

  /** The score reaches its maximum 0.8 from three documents and 500 characters on. */
  lemma ConfidenceSaturates(n: nat, l: nat)
    requires n >= 3 && l >= 500
    ensures Confidence(n, l) == 0.8
  {
    assert n as real / 3.0 >= 1.0;
    assert l as real / 500.0 >= 1.0;
  }

  // ---------------------------------------------------------------- get_answer

  /** `question.lower().strip()` */
  function Normalize(question: string): string {
    Trim(Py, AsciiLower(question))
  }

  /** The first predefined key, in declaration order, that occurs in q. */
  function FirstKey(q: string, from: nat): (r: Option<nat>)
    requires from <= |Predefined|
    ensures r.Some? ==> from <= r.value < |Predefined| && Contains(q, Predefined[r.value].0)
                        && forall j :: from <= j < r.value ==> !Contains(q, Predefined[j].0)
    ensures r.None? ==> forall j :: from <= j < |Predefined| ==> !Contains(q, Predefined[j].0)
    decreases |Predefined| - from
  {
    if from == |Predefined| then None
    else if Contains(q, Predefined[from].0) then Some(from)
    else FirstKey(q, from + 1)
  }

  /** A context document as the retriever returns it: content and optional `source` metadata. */
  datatype Doc = Doc(content: string, source: Option<string>)

  datatype Answer = Answer(question: string, answer: string, confidence: real,
                           sources: seq<string>, audioUrl: Option<string>)

  /** The audio URL for a text-to-speech outcome (None when conversion raised). */
  function AudioUrl(file: Option<string>): Option<string> {
    match file
    case None => None
    case Some(name) => Some(AudioPrefix + name)
  }

  function SourceOf(d: Doc): string {
    match d.source
    case Some(s) => s
    case None => "unknown"
  }

  function Sources(docs: seq<Doc>): (ss: seq<string>)
    ensures |ss| == |docs|
    ensures forall k :: 0 <= k < |docs| ==> ss[k] == SourceOf(docs[k])
  {
    seq(|docs|, k requires 0 <= k < |docs| => SourceOf(docs[k]))
  }

  /**
   * What get_answer returns. `tts` maps a text to the audio file name, or None
   * when conversion raised; `context` is None when retrieval raised, `llm` is
   * None when generation raised (both end in the error answer).
   */
  function AnswerSpec(question: string, tts: string -> Option<string>,
                      context: Option<seq<Doc>>, llm: Option<string>): (r: Answer)
    ensures r.question == question
    ensures 0.0 <= r.confidence <= 1.0
    ensures FirstKey(Normalize(question), 0).Some? ==>
              var i := FirstKey(Normalize(question), 0).value;
              r == Answer(question, Predefined[i].1, 1.0, ["Predefined Response"], AudioUrl(tts(Predefined[i].1)))
    ensures FirstKey(Normalize(question), 0).None? && context == Some([]) ==>
              r == Answer(question, NoContextAnswer, 0.0, [], None)
    ensures FirstKey(Normalize(question), 0).None? && (context.None? || (context != Some([]) && llm.None?)) ==>
              r == Answer(question, ErrorAnswer, 0.0, [], None)
    ensures FirstKey(Normalize(question), 0).None? && context.Some? && context.value != [] && llm.Some? ==>
              && r.answer == llm.value
              && r.sources == Sources(context.value)
              && r.confidence == Confidence(|context.value|, |llm.value|)
              && 0.0 < r.confidence <= 0.8
              && r.audioUrl == AudioUrl(tts(ExtractCodeBlocks(llm.value).0))
  {
    match FirstKey(Normalize(question), 0)
    case Some(i) =>
      Answer(question, Predefined[i].1, 1.0, ["Predefined Response"], AudioUrl(tts(Predefined[i].1)))
    case None =>
      if context.None? then Answer(question, ErrorAnswer, 0.0, [], None)
      else if context.value == [] then Answer(question, NoContextAnswer, 0.0, [], None)
      else if llm.None? then Answer(question, ErrorAnswer, 0.0, [], None)
      else
        var answer := llm.value;
        var speech := ExtractCodeBlocks(answer).0;
        Answer(question, answer, Confidence(|context.value|, |answer|), Sources(context.value), AudioUrl(tts(speech)))
  }

  /**
   * The loop of get_answer over the predefined responses: the index of the
   * first key contained in the normalised question, if any.
   */
  method MatchPredefined(normalized: string) returns (hit: Option<nat>)
    ensures hit == FirstKey(normalized, 0)
  {
    var i := 0;
    while i < |Predefined|
      invariant 0 <= i <= |Predefined|
      invariant FirstKey(normalized, 0) == FirstKey(normalized, i)
    {
      if Contains(normalized, Predefined[i].0) {
        return Some(i);
      }
      i := i + 1;
    }
    return None;
  }

  /**
   * get_answer: the loop over the predefined responses returns on the first
   * key contained in the normalised question; otherwise retrieval, then the
   * model, then speech for the answer with its code blocks replaced.
   */
  method GetAnswer(question: string, tts: string -> Option<string>,
                   context: Option<seq<Doc>>, llm: Option<string>) returns (r: Answer)
    ensures r == AnswerSpec(question, tts, context, llm)
  {
    var hit := MatchPredefined(Normalize(question));
    if hit.Some? {
      var response := Predefined[hit.value].1;
      var audio := AudioUrl(tts(response));
      return Answer(question, response, 1.0, ["Predefined Response"], audio);
    }
    if context.None? {
      return Answer(question, ErrorAnswer, 0.0, [], None);
    }
    var docs := context.value;
    if docs == [] {
      return Answer(question, NoContextAnswer, 0.0, [], None);
    }
    if llm.None? {
      return Answer(question, ErrorAnswer, 0.0, [], None);
    }
    var answer := llm.value;
    var (speech, codeBlocks) := ExtractCodeBlocks(answer);
    var audio := AudioUrl(tts(speech));
    r := Answer(question, answer, Confidence(|docs|, |answer|), Sources(docs), audio);
  }

  /** A question that mentions one of the keys, in any case and padding, gets its canned answer. */
  lemma NameQuestionIsPredefined()
    ensures FirstKey(Normalize("  What is your NAME? "), 0) == Some(0)
  {
    NormalizedName();
    var q := "what is your name?";
    assert OccursAt(q, Predefined[0].0, 0);
  }

  /** Lower-casing and stripping turn the padded, shouted question into the first key. */
  lemma NormalizedName()
    ensures Normalize("  What is your NAME? ") == "what is your name?"
  {
    var lowered := AsciiLower("  What is your NAME? ");
    assert lowered == "  what is your name? ";
    LeadingBlanks();
    TrailingBlank();
  }

  lemma LeadingBlanks()
    ensures TrimStart(Py, "  what is your name? ") == "what is your name? "
  {
    var s := "  what is your name? ";
    assert IsBlank(Py, s[..2]);
    TrimStartStopsAt(Py, s, 2);
    assert s[2..] == "what is your name? ";
  }

  lemma TrailingBlank()
    ensures TrimEnd(Py, "what is your name? ") == "what is your name?"
  {
    var s := "what is your name? ";
    assert IsBlank(Py, s[|s| - 1..]);
    TrimEndStopsAt(Py, s, |s| - 1);
    assert s[..|s| - 1] == "what is your name?";
  }
}
