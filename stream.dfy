/**
 * The streaming client of frontend/app/utils/api.ts: the response body
 * arrives as decoded text pieces, a buffer collects them, every complete
 * `\n`-terminated line is dispatched, and the unterminated rest waits for
 * the next piece. Lines of the form `data: <payload>` are the only ones
 * acted on, a subset of the event-stream format of the WHATWG HTML Living
 * Standard, sections 9.2.5 and 9.2.6 (no `event:`/`id:` fields, no CR
 * handling, no blank-line dispatch).
 *
 * streamChatCompletion and streamBranch share this decoder; they differ
 * only in the request they send. JSON.parse is the parameter `parse`, a
 * total function that reports an unparseable payload as `Unparseable`.
 */
module Api {
  import opened Wrappers
  import opened Text
  import opened Graph

  /** What the callers read from a parsed record: `choices[0]?.delta?.content` and `slot_id`. */
  datatype StreamChunk = StreamChunk(content: Option<string>, slotId: Option<int>)

  /**
   * JSON.parse of a payload, cast to StreamChunk: an exception, a record
   * whose `error` is truthy (its `message`, and its JSON text), or a chunk.
   */
  datatype Parsed = Unparseable | ErrorRecord(message: Option<string>, json: string) | ChunkRecord(chunk: StreamChunk)

  /** The callbacks, in the order they are called. */
  datatype Event = OnChunk(chunk: StreamChunk) | OnDone | OnError(message: string)

  /**
   * What fetch yields: a rejection with an error message, or a response
   * with its status, whether it has a body, the decoded pieces read() hands
   * out, and a rejection of a later read() if one happens.
   */
  datatype Response =
    | FetchFailed(message: string)
    | Response(ok: bool, status: nat, hasBody: bool, pieces: seq<string>, failure: Option<string>)

  // ---------------------------------------------------------------------------
  // Line framing

  /** One more character of text: a newline opens a new segment, any other character extends the last. */
  function Extend(segments: seq<string>, c: char): (r: seq<string>)
    requires |segments| >= 1
    ensures |r| >= 1
  {
    if c == '\n' then segments + [[]] else segments[..|segments| - 1] + [segments[|segments| - 1] + [c]]
  }

  /** `s.split('\n')`: the segments between newlines, always at least one. */
  function Split(s: string): (r: seq<string>)
    ensures |r| >= 1
  {
    if s == [] then [[]] else Extend(Split(s[..|s| - 1]), s[|s| - 1])
  }

  /** No segment holds a newline. */
  lemma {:induction false} SplitNoNewline(s: string)
    ensures forall k :: 0 <= k < |Split(s)| ==> '\n' !in Split(s)[k]
  {
    if s != [] {
      SplitNoNewline(s[..|s| - 1]);
      var p := Split(s[..|s| - 1]);
      var c := s[|s| - 1];
      if c != '\n' {
        assert '\n' !in p[|p| - 1] + [c];
        assert forall k :: 0 <= k < |p| - 1 ==> Split(s)[k] == p[k];
      }
    }
  }

  /** A newline-free text is one segment. */
  lemma {:induction false} NoNewlineSplit(s: string)
    requires '\n' !in s
    ensures Split(s) == [s]
  {
    if s != [] {
      assert s[..|s| - 1] + [s[|s| - 1]] == s;
      NoNewlineSplit(s[..|s| - 1]);
    }
  }

  /** `segments.join('\n')`. */
  function Join(segments: seq<string>): string
    requires |segments| >= 1
  {
    if |segments| == 1 then segments[0] else Join(segments[..|segments| - 1]) + "\n" + segments[|segments| - 1]
  }

  /** Splitting loses nothing: joining the segments back gives the text. */
  lemma {:induction false} JoinSplit(s: string)
    ensures Join(Split(s)) == s
  {
    if s != [] {
      var s' := s[..|s| - 1];
      var c := s[|s| - 1];
      JoinSplit(s');
      JoinExtend(Split(s'), c);
      assert s == s' + [c];
    }
  }

  /** Joining after one more character is joining before, then that character. */
  lemma {:induction false} JoinExtend(p: seq<string>, c: char)
    requires |p| >= 1
    ensures Join(Extend(p, c)) == Join(p) + [c]
  {
    if c == '\n' {
      assert (p + [[]])[..|p|] == p;
    } else if |p| > 1 {
      var q := p[..|p| - 1] + [p[|p| - 1] + [c]];
      assert q[..|q| - 1] == p[..|p| - 1];
      assert Join(p) == Join(p[..|p| - 1]) + "\n" + p[|p| - 1];
      assert Join(q) == Join(p[..|p| - 1]) + "\n" + (p[|p| - 1] + [c]);
    }
  }

  /** The segments a buffer holding `s` hands to the for-loop: all but the last. */
  function CompleteLines(s: string): (r: seq<string>)
    ensures |r| == |Split(s)| - 1
  {
    Split(s)[..|Split(s)| - 1]
  }

  /** `lines.pop() || ''`: what remains in the buffer. */
  function Leftover(s: string): (r: string)
    ensures '\n' !in r
  {
    SplitNoNewline(s);
    Split(s)[|Split(s)| - 1]
  }

  lemma {:induction false} SplitParts(s: string)
    ensures Split(s) == CompleteLines(s) + [Leftover(s)]
  {
  }

  /** Extending only ever touches the last segment. */
  lemma {:induction false} ExtendAppend(a: seq<string>, b: seq<string>, c: char)
    requires |b| >= 1
    ensures Extend(a + b, c) == a + Extend(b, c)
  {
    assert (a + b)[..|a + b| - 1] == a + b[..|b| - 1];
    assert (a + b)[|a + b| - 1] == b[|b| - 1];
  }

  /**
   * Appending text only extends the last segment: the complete lines of
   * `s` stay, and the leftover is joined with the new text.
   */
  lemma {:induction false} SplitAppend(s: string, t: string)
    ensures Split(s + t) == CompleteLines(s) + Split(Leftover(s) + t)
    decreases |t|
  {
    var lo := Leftover(s);
    if t == [] {
      assert s + t == s && lo + t == lo;
      NoNewlineSplit(lo);
      SplitParts(s);
    } else {
      var t' := t[..|t| - 1];
      var c := t[|t| - 1];
      SplitAppend(s, t');
      var cl := CompleteLines(s);
      var b := Split(lo + t');
      assert (s + t)[..|s + t| - 1] == s + t' && (s + t)[|s + t| - 1] == c;
      assert Split(s + t) == Extend(cl + b, c);
      assert (lo + t)[..|lo + t| - 1] == lo + t' && (lo + t)[|lo + t| - 1] == c;
      assert Split(lo + t) == Extend(b, c);
      ExtendAppend(cl, b, c);
    }
  }

  /** And joining newline-free segments splits back into exactly them. */
  lemma {:induction false} SplitJoin(segments: seq<string>)
    requires |segments| >= 1 && forall k :: 0 <= k < |segments| ==> '\n' !in segments[k]
    ensures Split(Join(segments)) == segments
  {
    var n := |segments|;
    if n == 1 {
      NoNewlineSplit(segments[0]);
    } else {
      var front := segments[..n - 1];
      var w := segments[n - 1];
      var j := Join(front);
      var l := segments[n - 2];
      assert CompleteLines(j) == segments[..n - 2] && Leftover(j) == l by {
        SplitJoin(front);
        assert front == segments[..n - 2] + [l];
      }
      assert '\n' !in l && '\n' !in w;
      assert Split(Join(segments)) == segments[..n - 2] + [l, w] by {
        assert Join(segments) == j + ("\n" + w);
        SplitAppend(j, "\n" + w);
        TwoSegments(l, w);
      }
      assert segments == segments[..n - 2] + [l, w];
    }
  }

  lemma {:induction false} TwoSegments(l: string, w: string)
    requires '\n' !in l && '\n' !in w
    ensures Split(l + ("\n" + w)) == [l, w]
  {
    var a := l + "\n";
    assert l + ("\n" + w) == a + w;
    assert Split(a) == [l, []] by {
      assert a[..|a| - 1] == l && a[|a| - 1] == '\n';
      NoNewlineSplit(l);
    }
    SplitAppend(a, w);
    assert Split(Leftover(a) + w) == [w] by {
      assert Leftover(a) + w == w;
      NoNewlineSplit(w);
    }
  }

  /** The buffer step: lines found after appending a piece, and the new leftover. */
  lemma {:induction false} LinesAppend(s: string, t: string)
    ensures CompleteLines(s + t) == CompleteLines(s) + CompleteLines(Leftover(s) + t)
    ensures Leftover(s + t) == Leftover(Leftover(s) + t)
  {
    SplitAppend(s, t);
    var tail := Split(Leftover(s) + t);
    assert Split(s + t) == CompleteLines(s) + tail;
    assert (CompleteLines(s) + tail)[..|CompleteLines(s) + tail| - 1] == CompleteLines(s) + tail[..|tail| - 1];
  }

  /** An unterminated last segment is never processed: text without a newline adds no line. */
  lemma {:induction false} UnterminatedTail(s: string, t: string)
    requires '\n' !in t
    ensures CompleteLines(s + t) == CompleteLines(s)
    ensures Leftover(s + t) == Leftover(s) + t
  {
    LinesAppend(s, t);
    assert '\n' !in Leftover(s) + t;
    NoNewlineSplit(Leftover(s) + t);
  }

  // ---------------------------------------------------------------------------
  // Record dispatch

  const DataPrefix := "data: "

  /** `chunk.error.message || JSON.stringify(chunk.error)`. */
  function ErrorText(message: Option<string>, json: string): (r: string)
    ensures message.Some? && message.value != "" ==> r == message.value
    ensures message.None? || message.value == "" ==> r == json
  {
    if message.Some? && message.value != "" then message.value else json
  }

  /**
   * The body of the for-loop for one line: the callback it makes, if any,
   * and whether it returns from the whole function.
   */
  function HandleLine(parse: string -> Parsed, line: string): (r: (Option<Event>, bool))
    ensures !StartsWith(line, DataPrefix) ==> r == (None, false)
    ensures StartsWith(line, DataPrefix) && line[6..] == "[DONE]" ==> r == (Some(OnDone), false)
    ensures r.1 <==> StartsWith(line, DataPrefix) && line[6..] != "[DONE]" && parse(line[6..]).ErrorRecord?
    ensures r.0.Some? && r.0.value.OnError? ==> r.1
    ensures StartsWith(line, DataPrefix) && line[6..] != "[DONE]" && parse(line[6..]).Unparseable? ==> r == (None, false)
  {
    if !StartsWith(line, DataPrefix) then (None, false)
    else
      var data := line[6..];
      if data == "[DONE]" then (Some(OnDone), false)
      else match parse(data)
        case Unparseable => (None, false)
        case ErrorRecord(message, json) => (Some(OnError(ErrorText(message, json))), true)
        case ChunkRecord(chunk) => (Some(OnChunk(chunk)), false)
  }

  function Emit(e: Option<Event>): seq<Event> {
    if e.Some? then [e.value] else []
  }

  /** The callbacks a batch of lines makes, in order, and whether one of them stopped the stream. */
  function Dispatch(parse: string -> Parsed, lines: seq<string>): (r: (seq<Event>, bool))
  {
    if lines == [] then ([], false)
    else
      var h := HandleLine(parse, lines[0]);
      if h.1 then (Emit(h.0), true)
      else
        var rest := Dispatch(parse, lines[1..]);
        (Emit(h.0) + rest.0, rest.1)
  }

  /** Where an error appears it is the last callback, and only an error stops the stream. */
  lemma {:induction false} ErrorIsLast(parse: string -> Parsed, lines: seq<string>)
    ensures var r := Dispatch(parse, lines);
            (forall k :: 0 <= k < |r.0| - 1 ==> !r.0[k].OnError?)
            && (r.1 <==> |r.0| > 0 && r.0[|r.0| - 1].OnError?)
  {
    if lines != [] {
      var h := HandleLine(parse, lines[0]);
      if !h.1 {
        ErrorIsLast(parse, lines[1..]);
        var rest := Dispatch(parse, lines[1..]);
        assert Dispatch(parse, lines).0 == Emit(h.0) + rest.0;
        if |rest.0| > 0 {
          assert Dispatch(parse, lines).0[|Dispatch(parse, lines).0| - 1] == rest.0[|rest.0| - 1];
        }
      }
    }
  }

  /** Dispatching two batches in turn is dispatching them together; a stop ends dispatch. */
  lemma {:induction false} DispatchAppend(parse: string -> Parsed, a: seq<string>, b: seq<string>)
    ensures Dispatch(parse, a).1 ==> Dispatch(parse, a + b) == Dispatch(parse, a)
    ensures !Dispatch(parse, a).1 ==>
              Dispatch(parse, a + b) == (Dispatch(parse, a).0 + Dispatch(parse, b).0, Dispatch(parse, b).1)
  {
    if a == [] {
      assert a + b == b;
      assert [] + Dispatch(parse, b).0 == Dispatch(parse, b).0;
    } else {
      assert (a + b)[0] == a[0] && (a + b)[1..] == a[1..] + b;
      var h := HandleLine(parse, a[0]);
      if !h.1 {
        DispatchAppend(parse, a[1..], b);
        var ra := Dispatch(parse, a[1..]);
        var rab := Dispatch(parse, a[1..] + b);
        assert Dispatch(parse, a) == (Emit(h.0) + ra.0, ra.1);
        assert Dispatch(parse, a + b) == (Emit(h.0) + rab.0, rab.1);
        if !ra.1 {
          assert Emit(h.0) + (ra.0 + Dispatch(parse, b).0) == Emit(h.0) + ra.0 + Dispatch(parse, b).0;
        }
      }
    }
  }

  /** One line on its own. */
  lemma {:induction false} DispatchOne(parse: string -> Parsed, line: string)
    ensures Dispatch(parse, [line]) == (Emit(HandleLine(parse, line).0), HandleLine(parse, line).1)
  {
    assert [line][1..] == [];
    assert Emit(HandleLine(parse, line).0) + [] == Emit(HandleLine(parse, line).0);
  }

  /** `[DONE]` does not end the stream: later records are still delivered. */
  lemma {:induction false} DoneThenChunk(parse: string -> Parsed, payload: string, c: StreamChunk)
    requires parse(payload) == ChunkRecord(c) && payload != "[DONE]"
    ensures Dispatch(parse, ["data: [DONE]", "data: " + payload, "data: [DONE]"]) == ([OnDone, OnChunk(c), OnDone], false)
  {
    var l1, l2 := "data: [DONE]", "data: " + payload;
    assert StartsWith(l1, DataPrefix) && l1[6..] == "[DONE]";
    assert l2[..6] == DataPrefix && l2[6..] == payload;
    assert HandleLine(parse, l1) == (Some(OnDone), false);
    assert HandleLine(parse, l2) == (Some(OnChunk(c)), false);
    DispatchOne(parse, l1);
    DispatchOne(parse, l2);
    assert Dispatch(parse, [l1]) == ([OnDone], false);
    assert Dispatch(parse, [l2]) == ([OnChunk(c)], false);
    DispatchAppend(parse, [l2], [l1]);
    assert [l2] + [l1] == [l2, l1];
    assert [OnChunk(c)] + [OnDone] == [OnChunk(c), OnDone];
    assert Dispatch(parse, [l2, l1]) == ([OnChunk(c), OnDone], false);
    DispatchAppend(parse, [l1], [l2, l1]);
    assert [l1] + [l2, l1] == [l1, l2, l1];
    assert [OnDone] + [OnChunk(c), OnDone] == [OnDone, OnChunk(c), OnDone];
  }

  /** An unparseable payload makes no callback and dispatch goes on. */
  lemma {:induction false} UnparseableSkipped(parse: string -> Parsed, line: string, lines: seq<string>)
    requires StartsWith(line, DataPrefix) && line[6..] != "[DONE]" && parse(line[6..]).Unparseable?
    ensures Dispatch(parse, [line] + lines) == Dispatch(parse, lines)
  {
    DispatchOne(parse, line);
    DispatchAppend(parse, [line], lines);
    assert [] + Dispatch(parse, lines).0 == Dispatch(parse, lines).0;
  }

  // ---------------------------------------------------------------------------
  // The whole call

  function HttpErrorText(status: nat): string {
    "HTTP error! status: " + DecimalString(status)
  }

  /**
   * The callbacks one call makes: one error for a failed fetch, a non-ok
   * status or a missing body; otherwise the dispatch of every complete line
   * of the concatenated body, then the error of a failed read unless the
   * stream had already stopped.
   */
  ghost function StreamEvents(parse: string -> Parsed, response: Response): (r: seq<Event>)
  {
    match response
    case FetchFailed(message) => [OnError(message)]
    case Response(ok, status, hasBody, pieces, failure) =>
      if !ok then [OnError(HttpErrorText(status))]
      else if !hasBody then [OnError("No response body")]
      else
        var d := Dispatch(parse, CompleteLines(Concat(pieces)));
        if d.1 || failure.None? then d.0 else d.0 + [OnError(failure.value)]
  }

  /** A failed request reports exactly one error and nothing else. */
  lemma {:induction false} FailedRequestOneError(parse: string -> Parsed, response: Response)
    requires response.FetchFailed? || !response.ok || !response.hasBody
    ensures |StreamEvents(parse, response)| == 1 && StreamEvents(parse, response)[0].OnError?
  {
  }

  /** At most one error, always last, whatever the body. */
  lemma {:induction false} AtMostOneError(parse: string -> Parsed, response: Response)
    ensures forall k :: 0 <= k < |StreamEvents(parse, response)| - 1 ==> !StreamEvents(parse, response)[k].OnError?
  {
    if response.Response? && response.ok && response.hasBody {
      ErrorIsLast(parse, CompleteLines(Concat(response.pieces)));
    }
  }

  /** The inner for-loop over one batch of lines; it returns as soon as an error record is met. */
  method DispatchLines(parse: string -> Parsed, lines: seq<string>) returns (events: seq<Event>, stopped: bool)
    ensures (events, stopped) == Dispatch(parse, lines)
  {
    events := [];
    stopped := false;
    var j := 0;
    while j < |lines| && !stopped
      invariant 0 <= j <= |lines|
      invariant !stopped ==> (events, false) == Dispatch(parse, lines[..j])
      invariant stopped ==> (events, true) == Dispatch(parse, lines)
    {
      DispatchAppend(parse, lines[..j], [lines[j]]);
      DispatchAppend(parse, lines[..j + 1], lines[j + 1..]);
      DispatchOne(parse, lines[j]);
      assert lines[..j] + [lines[j]] == lines[..j + 1];
      assert lines[..j + 1] + lines[j + 1..] == lines;
      ghost var before := events;
      var line := lines[j];
      if StartsWith(line, DataPrefix) {
        var data := line[6..];
        if data == "[DONE]" {
          events := events + [OnDone];
        } else {
          match parse(data) {
            case Unparseable =>
            case ErrorRecord(message, json) =>
              events := events + [OnError(ErrorText(message, json))];
              stopped := true;
            case ChunkRecord(chunk) =>
              events := events + [OnChunk(chunk)];
          }
        }
      }
      assert events == before + Emit(HandleLine(parse, line).0) && stopped == HandleLine(parse, line).1;
      j := j + 1;
    }
    if !stopped {
      assert lines[..j] == lines;
    }
  }

  /**
   * streamChatCompletion/streamBranch after the request is sent: the
   * callbacks are those of the concatenated body, however read() split it.
   */
  method ReadStream(parse: string -> Parsed, response: Response) returns (events: seq<Event>)
    ensures events == StreamEvents(parse, response)
  {
    if response.FetchFailed? {
      return [OnError(response.message)];
    }
    if !response.ok {
      return [OnError(HttpErrorText(response.status))];
    }
    if !response.hasBody {
      return [OnError("No response body")];
    }
    var pieces := response.pieces;
    var buffer := "";
    ghost var seen := "";
    var stopped := false;
    events := [];
    var i := 0;
    while i < |pieces| && !stopped
      invariant 0 <= i <= |pieces|
      invariant !stopped ==> seen == Concat(pieces[..i]) && buffer == Leftover(seen)
      invariant !stopped ==> (events, false) == Dispatch(parse, CompleteLines(seen))
      invariant stopped ==> (events, true) == Dispatch(parse, CompleteLines(Concat(pieces)))
    {
      ReadStep(parse, pieces, i, seen);
      StopsForGood(parse, pieces, i + 1);
      buffer := buffer + pieces[i];
      var segments := Split(buffer);
      var lines := segments[..|segments| - 1];
      buffer := segments[|segments| - 1];
      var batch, halt := DispatchLines(parse, lines);
      events := events + batch;
      stopped := halt;
      seen := seen + pieces[i];
      i := i + 1;
    }
    if !stopped {
      assert pieces[..i] == pieces;
      if response.failure.Some? {
        events := events + [OnError(response.failure.value)];
      }
    }
  }

  /** One read(): the lines the new piece completes, and what that does to the whole-body dispatch. */
  lemma {:induction false} ReadStep(parse: string -> Parsed, pieces: seq<string>, i: nat, seen: string)
    requires i < |pieces| && seen == Concat(pieces[..i]) && !Dispatch(parse, CompleteLines(seen)).1
    ensures Concat(pieces[..i + 1]) == seen + pieces[i]
    ensures Leftover(seen + pieces[i]) == Leftover(Leftover(seen) + pieces[i])
    ensures var d := Dispatch(parse, CompleteLines(Leftover(seen) + pieces[i]));
            Dispatch(parse, CompleteLines(seen + pieces[i])) == (Dispatch(parse, CompleteLines(seen)).0 + d.0, d.1)
  {
    assert Concat(pieces[..i + 1]) == seen + pieces[i] by {
      assert pieces[..i + 1][..i] == pieces[..i];
    }
    LinesAppend(seen, pieces[i]);
    DispatchAppend(parse, CompleteLines(seen), CompleteLines(Leftover(seen) + pieces[i]));
  }

  /** Once the lines read so far stop the stream, the rest of the body no longer matters. */
  lemma {:induction false} StopsForGood(parse: string -> Parsed, pieces: seq<string>, i: nat)
    requires i <= |pieces|
    ensures Dispatch(parse, CompleteLines(Concat(pieces[..i]))).1 ==>
              Dispatch(parse, CompleteLines(Concat(pieces))) == Dispatch(parse, CompleteLines(Concat(pieces[..i])))
  {
    var now := Concat(pieces[..i]);
    var later := Concat(pieces[i..]);
    assert pieces[..i] + pieces[i..] == pieces;
    ConcatAppend(pieces[..i], pieces[i..]);
    LinesAppend(now, later);
    DispatchAppend(parse, CompleteLines(now), CompleteLines(Leftover(now) + later));
  }

  // ---------------------------------------------------------------------------
  // Request bodies

  datatype BranchMode = ReuseKv | Fresh

  function BranchModeText(m: BranchMode): string {
    match m
    case ReuseKv => "reuse_kv"
    case Fresh => "fresh"
  }

  /** A JSON value of the request bodies. */
  datatype Json = JNumber(n: int) | JString(s: string) | JBool(b: bool) | JMessages(messages: seq<Message>)

  /** The body of /v1/chat/completions: the messages and `stream: true`. */
  function ChatBody(messages: seq<Message>): (body: seq<(string, Json)>)
    ensures |body| == 2 && body[0] == ("messages", JMessages(messages)) && body[1] == ("stream", JBool(true))
  {
    [("messages", JMessages(messages)), ("stream", JBool(true))]
  }

  /** The body of /v1/chat/branch, fields in the order JSON.stringify writes them. */
  function BranchBody(parentSlotId: int, mode: BranchMode, textExcerpt: string, contextWindow: int, prompt: string)
    : (body: seq<(string, Json)>)
    ensures |body| == 6
    ensures forall k :: 0 <= k < |body| ==> body[k].0 == ["parent_slot_id", "branch_mode", "text_excerpt", "context_window", "prompt", "stream"][k]
    ensures body[0].1 == JNumber(parentSlotId) && body[1].1 == JString(BranchModeText(mode))
    ensures body[2].1 == JString(textExcerpt) && body[3].1 == JNumber(contextWindow)
    ensures body[4].1 == JString(prompt) && body[5].1 == JBool(true)
  {
    [ ("parent_slot_id", JNumber(parentSlotId)),
      ("branch_mode", JString(BranchModeText(mode))),
      ("text_excerpt", JString(textExcerpt)),
      ("context_window", JNumber(contextWindow)),
      ("prompt", JString(prompt)),
      ("stream", JBool(true)) ]
  }
}
