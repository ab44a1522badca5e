/**
 * The bookkeeping of backend/app.py: the endpoints /generate, /focus and
 * /continue stream the pieces a completion yields, record for each kept
 * piece its token and the byte span it occupies in the UTF-8 encoding of
 * the whole answer, and finally store the answer in MESSAGE_STORE, with a
 * link to the message it continues for /focus and /continue.
 *
 * The model itself is abstracted: what `create_completion` yields is the
 * parameter `outs`, what `save_state` returns is `kvState`, and the message
 * id built from the clock is `messageId`.
 */
module Backend {
  import opened Wrappers
  import opened Text

  /** `out["choices"][0]`: its "text" (None when missing or null) and its "token". */
  datatype CompletionOut = CompletionOut(text: Option<string>, token: Option<int>)

  /** A MESSAGE_STORE entry: the fields of `Message` and, for /focus and /continue, `parent_id`. */
  datatype StoredMessage = StoredMessage(
    text: string,
    tokens: seq<int>,
    spans: seq<Span>,
    kvState: seq<byte>,
    parentId: Option<string>)

  /** Where a piece sits in the UTF-8 bytes of the whole answer: bytes [start, end). */
  datatype Span = Span(start: nat, end: nat)

  /** A record the stream yields: a piece (with its byte span for /generate and /continue), then the final one. */
  datatype Yield = PieceOut(piece: string, pos: Option<Span>) | DoneOut(messageId: string, fullText: string)

  /** An endpoint's answer: a JSON error with its status, or the prompt given to the model and the stream. */
  datatype Reply = ErrorReply(status: nat, error: string) | StreamReply(prompt: string, records: seq<Yield>)

  datatype ChatRequest = ChatRequest(system: string, user: string, history: seq<string>)

  datatype FocusRequest = FocusRequest(messageId: string, charStart: int, charEnd: int, followup: string, system: string)

  /** ChatRequest.system when the client sends none. */
  const DefaultChatSystem := "You are a helpful tutor focused on helping undergrads understand concepts intuitively with concise examples."

  /** FocusRequest.system when the client sends none. */
  const DefaultFocusSystem := "You are a helpful, concise assistant focused on the provided excerpt."

  /** The ChatRequest pydantic builds from a body that may leave out `system` and `history`. */
  function ParseChatRequest(system: Option<string>, user: string, history: Option<seq<string>>): (r: ChatRequest)
    ensures r.user == user
    ensures system.Some? ==> r.system == system.value
    ensures system.None? ==> r.system == DefaultChatSystem
    ensures history.Some? ==> r.history == history.value
    ensures history.None? ==> r.history == []
  {
    ChatRequest(system.GetOr(DefaultChatSystem), user, history.GetOr([]))
  }

  /** The FocusRequest pydantic builds from a body that may leave out `system`. */
  function ParseFocusRequest(messageId: string, charStart: int, charEnd: int, followup: string,
                             system: Option<string>): (r: FocusRequest)
    ensures r.messageId == messageId && r.charStart == charStart && r.charEnd == charEnd && r.followup == followup
    ensures system.Some? ==> r.system == system.value
    ensures system.None? ==> r.system == DefaultFocusSystem
  {
    FocusRequest(messageId, charStart, charEnd, followup, system.GetOr(DefaultFocusSystem))
  }

  // ---------------------------------------------------------------------------
  // Prompts

  const SystemTag := "<|system|>\n"
  const ContextTag := "<|context|>\n"
  const UserTag := "<|user|>\n"
  const AssistantTag := "<|assistant|>\n"

  /** The /generate prompt: the system text and the user text under their headers, then an open assistant turn. */
  function GeneratePrompt(system: string, user: string): (p: string)
    ensures var u := |SystemTag| + |system| + 1 + |UserTag|;
            && |p| == u + |user| + 1 + |AssistantTag|
            && p[..|SystemTag|] == SystemTag
            && p[|SystemTag|..|SystemTag| + |system|] == system
            && p[u..u + |user|] == user
            && p[u + |user|..] == "\n" + AssistantTag
  {
    var p := SystemTag + system + "\n" + UserTag + user + "\n" + AssistantTag;
    assert p == (SystemTag + system + "\n" + UserTag) + user + ("\n" + AssistantTag);
    p
  }

  /** The /focus prompt: system, the excerpt as context, the follow-up, then an open assistant turn. */
  function FocusPrompt(system: string, excerpt: string, followup: string): (p: string)
    ensures var c := |SystemTag| + |system| + 1 + |ContextTag|;
            var u := c + |excerpt| + 1 + |UserTag|;
            && |p| == u + |followup| + 1 + |AssistantTag|
            && p[..|SystemTag|] == SystemTag
            && p[|SystemTag|..|SystemTag| + |system|] == system
            && p[c..c + |excerpt|] == excerpt
            && p[u..u + |followup|] == followup
            && p[u + |followup|..] == "\n" + AssistantTag
  {
    var head := SystemTag + system + "\n" + ContextTag;
    var mid := "\n" + UserTag;
    var p := SystemTag + system + "\n" + ContextTag + excerpt + "\n" + UserTag + followup + "\n" + AssistantTag;
    assert p == head + excerpt + mid + followup + ("\n" + AssistantTag);
    p
  }

  /** The user turn /continue evaluates on top of the restored state; the request's system text is not used. */
  function ContinueTurn(user: string): (p: string)
    ensures var u := 1 + |UserTag|;
            && |p| == u + |user| + 1 + |AssistantTag|
            && p[..u] == "\n" + UserTag
            && p[u..u + |user|] == user
            && p[u + |user|..] == "\n" + AssistantTag
  {
    var p := "\n" + UserTag + user + "\n" + AssistantTag;
    assert p == ("\n" + UserTag) + user + ("\n" + AssistantTag);
    p
  }

  // ---------------------------------------------------------------------------
  // Pieces, tokens and spans

  /** `choice.get("text", "")`. */
  function PieceOf(o: CompletionOut): string {
    o.text.GetOr([])
  }

  /** The pieces the loop keeps: the non-empty ones, in order. */
  function KeptPieces(outs: seq<CompletionOut>): (r: seq<string>)
    ensures |r| <= |outs|
    ensures forall i :: 0 <= i < |r| ==> r[i] != []
  {
    if outs == [] then []
    else
      var piece := PieceOf(outs[|outs| - 1]);
      KeptPieces(outs[..|outs| - 1]) + (if piece == [] then [] else [piece])
  }

  /** `choice.get("token", -1)` for each kept piece. */
  function KeptTokens(outs: seq<CompletionOut>): (r: seq<int>)
    ensures |r| == |KeptPieces(outs)|
  {
    if outs == [] then []
    else
      var o := outs[|outs| - 1];
      KeptTokens(outs[..|outs| - 1]) + (if PieceOf(o) == [] then [] else [o.token.GetOr(-1)])
  }

  /** The UTF-8 bytes of the first `i` pieces: the running `curr_len` once they are streamed. */
  function PrefixBytes(pieces: seq<string>, i: nat): nat
    requires i <= |pieces|
  {
    if i == 0 then 0 else PrefixBytes(pieces, i - 1) + Utf8Length(pieces[i - 1])
  }

  /** Where piece `i` sits in the UTF-8 encoding of all pieces joined: from the bytes before it to the bytes through it. */
  function ByteSpan(pieces: seq<string>, i: nat): Span
    requires i < |pieces|
  {
    Span(PrefixBytes(pieces, i), PrefixBytes(pieces, i + 1))
  }

  /** The span of every piece. */
  function Spans(pieces: seq<string>): (r: seq<Span>)
    ensures |r| == |pieces|
  {
    seq(|pieces|, i requires 0 <= i < |pieces| => ByteSpan(pieces, i))
  }

  /** The piece records: each piece, with its span when `withPos`. */
  function PieceRecords(pieces: seq<string>, withPos: bool): (r: seq<Yield>)
    ensures |r| == |pieces|
  {
    seq(|pieces|, i requires 0 <= i < |pieces| => PieceOut(pieces[i], if withPos then Some(ByteSpan(pieces, i)) else None))
  }

  /** Appending a piece leaves the byte counts of the earlier prefixes as they were. */
  lemma {:induction false} PrefixBytesAppend(pieces: seq<string>, piece: string, k: nat)
    requires k <= |pieces|
    ensures PrefixBytes(pieces + [piece], k) == PrefixBytes(pieces, k)
  {
    if k > 0 {
      PrefixBytesAppend(pieces, piece, k - 1);
      assert (pieces + [piece])[k - 1] == pieces[k - 1];
    }
  }

  /** The running count is the byte length of the text joined so far. */
  lemma {:induction false} PrefixBytesIsLength(pieces: seq<string>, i: nat)
    requires i <= |pieces|
    ensures PrefixBytes(pieces, i) == Utf8Length(Concat(pieces[..i]))
  {
    if i > 0 {
      PrefixBytesIsLength(pieces, i - 1);
      assert pieces[..i] == pieces[..i - 1] + [pieces[i - 1]];
      ConcatSnoc(pieces[..i - 1], pieces[i - 1]);
      Utf8LengthAppend(Concat(pieces[..i - 1]), pieces[i - 1]);
    }
  }

  /** Appending a piece leaves the earlier spans as they were. */
  lemma {:induction false} ByteSpanKept(pieces: seq<string>, piece: string, k: nat)
    requires k < |pieces|
    ensures ByteSpan(pieces + [piece], k) == ByteSpan(pieces, k)
  {
    PrefixBytesAppend(pieces, piece, k);
    PrefixBytesAppend(pieces, piece, k + 1);
  }

  /** An appended piece's span runs from the byte count so far over its own bytes. */
  lemma {:induction false} ByteSpanLast(pieces: seq<string>, piece: string)
    ensures var n := PrefixBytes(pieces, |pieces|);
            ByteSpan(pieces + [piece], |pieces|) == Span(n, n + Utf8Length(piece))
  {
    PrefixBytesAppend(pieces, piece, |pieces|);
    assert (pieces + [piece])[|pieces|] == piece;
  }

  lemma {:induction false} SpansSnoc(pieces: seq<string>, piece: string)
    ensures Spans(pieces + [piece]) == Spans(pieces) + [ByteSpan(pieces + [piece], |pieces|)]
  {
    var more := pieces + [piece];
    var s1, s2 := Spans(more), Spans(pieces) + [ByteSpan(more, |pieces|)];
    forall k | 0 <= k < |pieces| ensures s1[k] == s2[k] {
      ByteSpanKept(pieces, piece, k);
    }
    assert s1 == s2;
  }

  lemma {:induction false} RecordsSnoc(pieces: seq<string>, piece: string, withPos: bool)
    ensures var more := pieces + [piece];
            PieceRecords(more, withPos)
            == PieceRecords(pieces, withPos) + [PieceOut(piece, if withPos then Some(ByteSpan(more, |pieces|)) else None)]
  {
    var more := pieces + [piece];
    var r1 := PieceRecords(more, withPos);
    var r2 := PieceRecords(pieces, withPos) + [PieceOut(piece, if withPos then Some(ByteSpan(more, |pieces|)) else None)];
    forall k | 0 <= k < |pieces| ensures r1[k] == r2[k] {
      ByteSpanKept(pieces, piece, k);
      assert more[k] == pieces[k];
    }
    assert more[|pieces|] == piece;
    assert r1 == r2;
  }

  /** Appending a piece appends its span, starting at the byte count so far, and its record. */
  lemma {:induction false} SpansAppend(pieces: seq<string>, piece: string, withPos: bool)
    ensures var n := PrefixBytes(pieces, |pieces|);
            && PrefixBytes(pieces + [piece], |pieces| + 1) == n + Utf8Length(piece)
            && Spans(pieces + [piece]) == Spans(pieces) + [Span(n, n + Utf8Length(piece))]
            && PieceRecords(pieces + [piece], withPos)
               == PieceRecords(pieces, withPos) + [PieceOut(piece, if withPos then Some(Span(n, n + Utf8Length(piece))) else None)]
  {
    ByteSpanLast(pieces, piece);
    SpansSnoc(pieces, piece);
    RecordsSnoc(pieces, piece, withPos);
  }

  /** What the loop of `stream()` has built after the first `i` outputs. */
  predicate StreamedSoFar(outs: seq<CompletionOut>, i: nat, withPos: bool, accText: seq<string>, tokens: seq<int>,
                          spans: seq<Span>, records: seq<Yield>, currLen: nat)
    requires i <= |outs|
  {
    && accText == KeptPieces(outs[..i]) && tokens == KeptTokens(outs[..i])
    && currLen == PrefixBytes(accText, |accText|)
    && spans == Spans(accText) && records == PieceRecords(accText, withPos)
  }

  /** One turn of that loop: an empty piece changes nothing, another one is appended with its token, span and record. */
  lemma {:induction false} StreamStep(outs: seq<CompletionOut>, i: nat, withPos: bool, accText: seq<string>, tokens: seq<int>,
                   spans: seq<Span>, records: seq<Yield>, currLen: nat)
    requires i < |outs| && StreamedSoFar(outs, i, withPos, accText, tokens, spans, records, currLen)
    ensures var piece := PieceOf(outs[i]);
            var span := Span(currLen, currLen + Utf8Length(piece));
            if piece == [] then StreamedSoFar(outs, i + 1, withPos, accText, tokens, spans, records, currLen)
            else StreamedSoFar(outs, i + 1, withPos, accText + [piece], tokens + [outs[i].token.GetOr(-1)],
                               spans + [span], records + [PieceOut(piece, if withPos then Some(span) else None)],
                               currLen + Utf8Length(piece))
  {
    assert outs[..i + 1][..i] == outs[..i];
    var piece := PieceOf(outs[i]);
    if piece == [] {
      assert accText + [] == accText && tokens + [] == tokens;
    } else {
      SpansAppend(accText, piece, withPos);
    }
  }

  /**
   * The body of `stream()` up to the final record, shared by the three
   * endpoints: every empty piece is skipped; every other one is kept, its
   * token recorded, its span taken from the running byte count, and a
   * record yielded (with its span when `withPos`).
   */
  method StreamPieces(outs: seq<CompletionOut>, withPos: bool)
    returns (accText: seq<string>, tokens: seq<int>, spans: seq<Span>, records: seq<Yield>)
    ensures accText == KeptPieces(outs) && tokens == KeptTokens(outs)
    ensures spans == Spans(accText) && records == PieceRecords(accText, withPos)
  {
    accText, tokens, spans, records := [], [], [], [];
    var currLen: nat := 0;
    for i := 0 to |outs|
      invariant StreamedSoFar(outs, i, withPos, accText, tokens, spans, records, currLen)
    {
      StreamStep(outs, i, withPos, accText, tokens, spans, records, currLen);
      var piece := PieceOf(outs[i]);
      if piece != [] {
        accText := accText + [piece];
        var start := currLen;
        currLen := currLen + Utf8Length(piece);
        var end := currLen;
        spans := spans + [Span(start, end)];
        tokens := tokens + [outs[i].token.GetOr(-1)];
        records := records + [PieceOut(piece, if withPos then Some(Span(start, end)) else None)];
      }
    }
    assert outs[..|outs|] == outs;
  }

  /** Skipping empty pieces loses no text: the kept pieces join to all the pieces joined. */
  lemma {:induction false} KeptTextIsAll(outs: seq<CompletionOut>)
    ensures Concat(KeptPieces(outs)) == Concat(seq(|outs|, i requires 0 <= i < |outs| => PieceOf(outs[i])))
  {
    var all := seq(|outs|, i requires 0 <= i < |outs| => PieceOf(outs[i]));
    if outs != [] {
      var front := outs[..|outs| - 1];
      var piece := PieceOf(outs[|outs| - 1]);
      KeptTextIsAll(front);
      assert all[..|all| - 1] == seq(|front|, i requires 0 <= i < |front| => PieceOf(front[i]));
      ConcatAppend(KeptPieces(front), if piece == [] then [] else [piece]);
      if piece == [] {
        assert KeptPieces(front) + [] == KeptPieces(front);
      } else {
        assert Concat([piece]) == Concat([]) + piece;
      }
    }
  }

  lemma {:induction false} MiddleSlice<T>(x: seq<T>, y: seq<T>, z: seq<T>)
    ensures (x + y + z)[|x|..|x| + |y|] == y
  {
  }

  /** The whole text is the pieces before `i`, piece `i`, and the pieces after it. */
  lemma {:induction false} ConcatAround(pieces: seq<string>, i: nat)
    requires i < |pieces|
    ensures Concat(pieces) == Concat(pieces[..i]) + pieces[i] + Concat(pieces[i + 1..])
    ensures Concat(pieces[..i + 1]) == Concat(pieces[..i]) + pieces[i]
  {
    var front, back := pieces[..i + 1], pieces[i + 1..];
    assert Concat(front) == Concat(pieces[..i]) + pieces[i] by {
      assert front == pieces[..i] + [pieces[i]];
      ConcatSnoc(pieces[..i], pieces[i]);
    }
    assert Concat(pieces) == Concat(front) + Concat(back) by {
      assert front + back == pieces;
      ConcatAppend(front, back);
    }
  }

  /** Each span picks out exactly the bytes of its piece in the encoding of the whole text. */
  lemma {:induction false} SpanBytes(pieces: seq<string>, i: nat)
    requires i < |pieces|
    ensures var full := Utf8Encode(Concat(pieces));
            var span := ByteSpan(pieces, i);
            span.start <= span.end <= |full| && full[span.start..span.end] == Utf8Encode(pieces[i])
  {
    var before, piece, after := Concat(pieces[..i]), pieces[i], Concat(pieces[i + 1..]);
    ConcatAround(pieces, i);
    PrefixBytesIsLength(pieces, i);
    PrefixBytesIsLength(pieces, i + 1);
    Utf8EncodeAppend(before + piece, after);
    Utf8EncodeAppend(before, piece);
    Utf8LengthIsEncodedLength(before);
    Utf8LengthIsEncodedLength(before + piece);
    Utf8LengthIsEncodedLength(Concat(pieces));
    MiddleSlice(Utf8Encode(before), Utf8Encode(piece), Utf8Encode(after));
  }

  // ---------------------------------------------------------------------------
  // Request validation

  /** An endpoint's check of its request: accepted with what it found, or rejected with a status. */
  datatype Checked<T> = Accepted(value: T) | Rejected(status: nat, error: string)

  /**
   * /focus before streaming: 404 for an unknown message id; otherwise the
   * excerpt is the Python slice `text[char_start:char_end]` stripped, and a
   * slice made only of white space is a 400.
   */
  function CheckFocus(store: map<string, StoredMessage>, req: FocusRequest): (r: Checked<string>)
    ensures r == Rejected(404, "unknown message_id") <==> req.messageId !in store
    ensures r == Rejected(400, "empty excerpt") <==>
              req.messageId in store && AllWhitespace(PySlice(store[req.messageId].text, req.charStart, req.charEnd), IsPyWhitespace)
    ensures r.Accepted? ==>
              req.messageId in store && r.value != [] &&
              r.value == Strip(PySlice(store[req.messageId].text, req.charStart, req.charEnd), IsPyWhitespace)
  {
    if req.messageId !in store then Rejected(404, "unknown message_id")
    else
      var slice := PySlice(store[req.messageId].text, req.charStart, req.charEnd);
      var excerpt := Strip(slice, IsPyWhitespace);
      StripEmptyIff(slice, IsPyWhitespace);
      if excerpt == [] then Rejected(400, "empty excerpt") else Accepted(excerpt)
  }

  /** /continue before streaming: 400 for an empty history; the parent is its last id, 404 when unknown. */
  function CheckContinue(store: map<string, StoredMessage>, history: seq<string>): (r: Checked<string>)
    ensures r == Rejected(400, "history missing or empty") <==> history == []
    ensures r == Rejected(404, "unknown message_id") <==> history != [] && history[|history| - 1] !in store
    ensures r.Accepted? <==> history != [] && history[|history| - 1] in store
    ensures r.Accepted? ==> r.value == history[|history| - 1]
  {
    if history == [] then Rejected(400, "history missing or empty")
    else
      var parentId := history[|history| - 1];
      if parentId !in store then Rejected(404, "unknown message_id") else Accepted(parentId)
  }

  // ---------------------------------------------------------------------------
  // The endpoints

  /** The entry a finished stream stores: the joined kept pieces, their tokens and their spans. */
  function Finished(outs: seq<CompletionOut>, kvState: seq<byte>, parentId: Option<string>): StoredMessage {
    var pieces := KeptPieces(outs);
    StoredMessage(Concat(pieces), KeptTokens(outs), Spans(pieces), kvState, parentId)
  }

  /** The records one answer yields: one per kept piece, then the final record with the id and the text. */
  function Records(outs: seq<CompletionOut>, withPos: bool, messageId: string): seq<Yield> {
    PieceRecords(KeptPieces(outs), withPos) + [DoneOut(messageId, Concat(KeptPieces(outs)))]
  }

  /**
   * The final record carries the text that is stored, which is every piece
   * the model produced joined (the skipped empty ones add nothing); each
   * piece record carries a kept, non-empty piece, and its stored span
   * exactly when `withPos`; there is one token per span.
   */
  lemma {:induction false} AnswerText(outs: seq<CompletionOut>, kvState: seq<byte>, parentId: Option<string>, withPos: bool, messageId: string)
    ensures var m := Finished(outs, kvState, parentId);
            var r := Records(outs, withPos, messageId);
            var pieces := KeptPieces(outs);
            && r[|r| - 1] == DoneOut(messageId, m.text)
            && m.text == Concat(seq(|outs|, i requires 0 <= i < |outs| => PieceOf(outs[i])))
            && |m.tokens| == |m.spans| == |pieces| == |r| - 1
            && forall i :: 0 <= i < |r| - 1 ==>
                 pieces[i] != [] && r[i] == PieceOut(pieces[i], if withPos then Some(m.spans[i]) else None)
  {
    KeptTextIsAll(outs);
  }

  /**
   * The spans tile the UTF-8 bytes of the joined pieces: the first starts
   * at 0, each starts where the previous one ended, the last ends at the
   * text's byte length, and each selects the bytes of its own piece.
   */
  lemma {:induction false} SpansTile(pieces: seq<string>)
    ensures var spans, full := Spans(pieces), Utf8Encode(Concat(pieces));
            && (|spans| > 0 ==> spans[0].start == 0 && spans[|spans| - 1].end == Utf8Length(Concat(pieces)))
            && (forall i :: 0 <= i < |spans| - 1 ==> spans[i].end == spans[i + 1].start)
            && forall i :: 0 <= i < |spans| ==>
                 spans[i].start <= spans[i].end <= |full| && full[spans[i].start..spans[i].end] == Utf8Encode(pieces[i])
  {
    SpansChain(pieces);
    SpansSelect(pieces);
  }

  lemma {:induction false} SpansChain(pieces: seq<string>)
    ensures var spans := Spans(pieces);
            && (|spans| > 0 ==> spans[0].start == 0 && spans[|spans| - 1].end == Utf8Length(Concat(pieces)))
            && (forall i :: 0 <= i < |spans| - 1 ==> spans[i].end == spans[i + 1].start)
  {
    PrefixBytesIsLength(pieces, |pieces|);
    assert pieces[..|pieces|] == pieces;
  }

  lemma {:induction false} SpansSelect(pieces: seq<string>)
    ensures var spans, full := Spans(pieces), Utf8Encode(Concat(pieces));
            forall i :: 0 <= i < |spans| ==>
              spans[i].start <= spans[i].end <= |full| && full[spans[i].start..spans[i].end] == Utf8Encode(pieces[i])
  {
    forall i | 0 <= i < |pieces|
      ensures ByteSpan(pieces, i).start <= ByteSpan(pieces, i).end <= |Utf8Encode(Concat(pieces))|
      ensures Utf8Encode(Concat(pieces))[ByteSpan(pieces, i).start..ByteSpan(pieces, i).end] == Utf8Encode(pieces[i])
    {
      SpanBytes(pieces, i);
    }
  }

  /**
   * The /focus excerpt is a piece of the focused message: a contiguous run
   * of the stored text that starts no earlier than the slice does. With
   * CheckFocus, whose accepted value is this excerpt, an accepted request
   * always quotes the message.
   */
  lemma {:induction false} ExcerptInMessage(text: string, charStart: int, charEnd: int) returns (k: nat)
    ensures var excerpt := Strip(PySlice(text, charStart, charEnd), IsPyWhitespace);
            PyBound(charStart, |text|) <= k && k + |excerpt| <= |text| && text[k..k + |excerpt|] == excerpt
  {
    var slice := PySlice(text, charStart, charEnd);
    var j := StripWithin(slice, IsPyWhitespace);
    k := RunOfSlice(text, PyBound(charStart, |text|), PyBound(charEnd, |text|), slice, Strip(slice, IsPyWhitespace), j);
  }

  /** A run inside a slice `text[a:b]` is a run of `text` itself, starting at or after `a`. */
  lemma {:induction false} RunOfSlice(text: string, a: nat, b: nat, slice: string, run: string, j: nat) returns (k: nat)
    requires a <= |text| && b <= |text|
    requires a < b ==> slice == text[a..b]
    requires a >= b ==> slice == []
    requires j + |run| <= |slice| && slice[j..j + |run|] == run
    ensures a <= k && k + |run| <= |text| && text[k..k + |run|] == run
  {
    if a < b {
      k := a + j;
      assert text[k..k + |run|] == slice[j..j + |run|];
    } else {
      k := a;
      assert text[k..k + |run|] == [];
    }
  }

  /** Every parent link in the store names a stored message (what the tree view relies on). */
  predicate ParentsStored(store: map<string, StoredMessage>) {
    forall id :: id in store && store[id].parentId.Some? ==> store[id].parentId.value in store
  }

  /** Storing a message whose parent is stored keeps every parent link resolvable. */
  lemma {:induction false} StoreKeepsParents(store: map<string, StoredMessage>, id: string, m: StoredMessage)
    requires ParentsStored(store) && (m.parentId.Some? ==> m.parentId.value in store)
    ensures ParentsStored(store[id := m])
  {
  }

  /** The process-wide MESSAGE_STORE and the three endpoints that write it. */
  class Server {
    var store: map<string, StoredMessage>

    constructor ()
      ensures store == map[]
    {
      store := map[];
    }

    /** Collects one completion and stores the answer under `messageId`. */
    method Complete(outs: seq<CompletionOut>, withPos: bool, messageId: string, kvState: seq<byte>,
                    parentId: Option<string>) returns (records: seq<Yield>)
      modifies this
      ensures store == old(store)[messageId := Finished(outs, kvState, parentId)]
      ensures records == Records(outs, withPos, messageId)
    {
      var accText, tokens, spans, pieceRecords := StreamPieces(outs, withPos);
      var fullText := Concat(accText);
      store := store[messageId := StoredMessage(fullText, tokens, spans, kvState, None)];
      if parentId.Some? {
        store := store[messageId := store[messageId].(parentId := parentId)];
      }
      records := pieceRecords + [DoneOut(messageId, fullText)];
    }

    /** POST /generate: always streams; the stored answer has no parent. */
    method Generate(req: ChatRequest, outs: seq<CompletionOut>, messageId: string, kvState: seq<byte>)
      returns (reply: Reply)
      modifies this
      ensures reply == StreamReply(GeneratePrompt(req.system, req.user), Records(outs, true, messageId))
      ensures store == old(store)[messageId := Finished(outs, kvState, None)]
      ensures ParentsStored(old(store)) ==> ParentsStored(store)
    {
      var prompt := GeneratePrompt(req.system, req.user);
      var records := Complete(outs, true, messageId, kvState, None);
      reply := StreamReply(prompt, records);
    }

    /**
     * POST /focus: a rejected request changes nothing; otherwise the answer
     * to the excerpt and follow-up is stored with the focused message as
     * its parent.
     */
    method Focus(req: FocusRequest, outs: seq<CompletionOut>, messageId: string, kvState: seq<byte>)
      returns (reply: Reply)
      modifies this
      ensures CheckFocus(old(store), req).Rejected? ==>
                store == old(store) &&
                reply == ErrorReply(CheckFocus(old(store), req).status, CheckFocus(old(store), req).error)
      ensures CheckFocus(old(store), req).Accepted? ==>
                && reply == StreamReply(FocusPrompt(req.system, CheckFocus(old(store), req).value, req.followup),
                                        Records(outs, false, messageId))
                && store == old(store)[messageId := Finished(outs, kvState, Some(req.messageId))]
      ensures ParentsStored(old(store)) ==> ParentsStored(store)
    {
      ghost var check := CheckFocus(store, req);
      if req.messageId !in store {
        return ErrorReply(404, "unknown message_id");
      }
      var rec := store[req.messageId];
      var excerpt := Strip(PySlice(rec.text, req.charStart, req.charEnd), IsPyWhitespace);
      if excerpt == [] {
        assert check == Rejected(400, "empty excerpt");
        return ErrorReply(400, "empty excerpt");
      }
      assert check == Accepted(excerpt);
      if ParentsStored(store) {
        StoreKeepsParents(store, messageId, Finished(outs, kvState, Some(req.messageId)));
      }
      var prompt := FocusPrompt(req.system, excerpt, req.followup);
      var records := Complete(outs, false, messageId, kvState, Some(req.messageId));
      reply := StreamReply(prompt, records);
    }

    /**
     * POST /continue: a rejected request changes nothing; otherwise the
     * answer to the new user turn is stored with the last history entry as
     * its parent.
     */
    method Continue(req: ChatRequest, outs: seq<CompletionOut>, messageId: string, kvState: seq<byte>)
      returns (reply: Reply)
      modifies this
      ensures CheckContinue(old(store), req.history).Rejected? ==>
                store == old(store) &&
                reply == ErrorReply(CheckContinue(old(store), req.history).status, CheckContinue(old(store), req.history).error)
      ensures CheckContinue(old(store), req.history).Accepted? ==>
                && reply == StreamReply(ContinueTurn(req.user), Records(outs, true, messageId))
                && store == old(store)[messageId := Finished(outs, kvState, Some(req.history[|req.history| - 1]))]
      ensures ParentsStored(old(store)) ==> ParentsStored(store)
    {
      if |req.history| == 0 {
        return ErrorReply(400, "history missing or empty");
      }
      var parentId := req.history[|req.history| - 1];
      if parentId !in store {
        return ErrorReply(404, "unknown message_id");
      }
      var turn := ContinueTurn(req.user);
      var records := Complete(outs, true, messageId, kvState, Some(parentId));
      reply := StreamReply(turn, records);
    }
  }
}
