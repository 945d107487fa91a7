/**
 The SSE reader of the keeper (apps/keeper/src/stream.ts): a buffer that grows by
 whatever chunk the transport delivers and is cut at every blank line.
 */
module FrameStream {
  import opened Wrappers

  const BLANK := "\n\n"
  const DATA := "data: "

  ghost predicate BlankAt(s: string, k: int) {
    0 <= k && k + 2 <= |s| && s[k] == '\n' && s[k + 1] == '\n'
  }

  ghost predicate HasBlank(s: string) { exists k :: BlankAt(s, k) }

  /** The first blank line, or -1. */
  function IndexOfBlank(s: string): (i: int)
    ensures i >= 0 ==> BlankAt(s, i)
    ensures forall k :: BlankAt(s, k) ==> 0 <= i <= k
  {
    if |s| < 2 then -1
    else if s[0] == '\n' && s[1] == '\n' then 0
    else
      var rest := IndexOfBlank(s[1..]);
      assert forall k :: BlankAt(s, k) ==> BlankAt(s[1..], k - 1);
      if rest < 0 then -1 else rest + 1
  }

  /** The leftmost split of a text on blank lines: the complete frames... */
  function Frames(s: string): seq<string> {
    var i := IndexOfBlank(s);
    if i < 0 then [] else [s[..i]] + Frames(s[i + 2..])
  }

  /** ...and the text after the last of them. */
  function Leftover(s: string): string {
    var i := IndexOfBlank(s);
    if i < 0 then s else Leftover(s[i + 2..])
  }

  function Unsplit(frames: seq<string>, rest: string): string {
    if frames == [] then rest else frames[0] + BLANK + Unsplit(frames[1..], rest)
  }

  /** A frame neither holds a blank line nor ends in a newline, so its terminator is the first one after it. */
  ghost predicate Closed(frame: string) {
    !HasBlank(frame) && (frame != "" ==> frame[|frame| - 1] != '\n')
  }

  ghost predicate LeftmostSplit(s: string, frames: seq<string>, rest: string) {
    s == Unsplit(frames, rest) && !HasBlank(rest) && forall f :: f in frames ==> Closed(f)
  }

  lemma FirstCut(f: string, tail: string)
    requires Closed(f)
    ensures IndexOfBlank(f + BLANK + tail) == |f|
    ensures (f + BLANK + tail)[..|f|] == f && (f + BLANK + tail)[|f| + 2..] == tail
  {
    var s := f + BLANK + tail;
    assert BlankAt(s, |f|);
    forall k | 0 <= k < |f| ensures !BlankAt(s, k) {
      assert s[k] == f[k];
      if k + 1 < |f| { assert s[k + 1] == f[k + 1]; assert !BlankAt(f, k); }
    }
  }

  lemma CutIsClosed(s: string)
    requires IndexOfBlank(s) >= 0
    ensures Closed(s[..IndexOfBlank(s)])
    ensures s == s[..IndexOfBlank(s)] + BLANK + s[IndexOfBlank(s) + 2..]
  {
    var i := IndexOfBlank(s);
    var f := s[..i];
    forall k ensures !BlankAt(f, k) {
      if BlankAt(f, k) { assert BlankAt(s, k); }
    }
    if f != "" && f[|f| - 1] == '\n' { assert BlankAt(s, i - 1); }
  }

  /** The frames and the leftover are the one and only leftmost split of the text. */
  lemma {:induction false} SplitIsUnique(s: string, frames: seq<string>, rest: string)
    ensures LeftmostSplit(s, frames, rest) <==> frames == Frames(s) && rest == Leftover(s)
    decreases |s|
  {
    SplitIsLeftmost(s);
    if LeftmostSplit(s, frames, rest) && frames != [] {
      var tail := Unsplit(frames[1..], rest);
      FirstCut(frames[0], tail);
      SplitIsUnique(tail, frames[1..], rest);
    }
  }

  lemma {:induction false} SplitIsLeftmost(s: string)
    ensures LeftmostSplit(s, Frames(s), Leftover(s))
    decreases |s|
  {
    var i := IndexOfBlank(s);
    if i >= 0 {
      CutIsClosed(s);
      SplitIsLeftmost(s[i + 2..]);
    }
  }

  /** More text only ever continues where the leftover stopped. */
  lemma {:induction false} FramesOfMore(s: string, more: string)
    ensures Frames(s + more) == Frames(s) + Frames(Leftover(s) + more)
    ensures Leftover(s + more) == Leftover(Leftover(s) + more)
    decreases |s|
  {
    var i := IndexOfBlank(s);
    if i >= 0 {
      CutIsClosed(s);
      assert s + more == s[..i] + BLANK + (s[i + 2..] + more);
      FirstCut(s[..i], s[i + 2..] + more);
      FramesOfMore(s[i + 2..], more);
    }
  }

  // ----------------------------------------------------------------- payloads

  function Lines(s: string): (r: seq<string>)
    ensures r != []
  {
    if s == "" then [""]
    else
      var rest := Lines(s[1..]);
      if s[0] == '\n' then [""] + rest else [[s[0]] + rest[0]] + rest[1..]
  }

  predicate StartsWith(s: string, prefix: string) { prefix <= s }

  function FirstData(lines: seq<string>): Option<string> {
    if lines == [] then None
    else if StartsWith(lines[0], DATA) then Some(lines[0][|DATA|..])
    else FirstData(lines[1..])
  }

  /** What the frame hands to the candidate parser: its first data line, if it has one. */
  function Payload(frame: string): Option<string> { FirstData(Lines(frame)) }

  function Payloads(frames: seq<string>): seq<string> {
    if frames == [] then []
    else match Payload(frames[0])
      case Some(p) => [p] + Payloads(frames[1..])
      case None => Payloads(frames[1..])
  }

  lemma {:induction false} PayloadsAppend(a: seq<string>, b: seq<string>)
    ensures Payloads(a + b) == Payloads(a) + Payloads(b)
  {
    if a == [] {
      assert a + b == b;
    } else {
      hide Payload;
      assert (a + b)[1..] == a[1..] + b;
      PayloadsAppend(a[1..], b);
    }
  }

  function Concat(chunks: seq<string>): string {
    if chunks == [] then "" else Concat(chunks[..|chunks| - 1]) + chunks[|chunks| - 1]
  }

  /** The read loop: however the text was cut into chunks, exactly the payloads of its frames, in order. */
  method ReadFrames(chunks: seq<string>) returns (payloads: seq<string>, buf: string)
    ensures payloads == Payloads(Frames(Concat(chunks)))
    ensures buf == Leftover(Concat(chunks)) && !HasBlank(buf)
  {
    hide Payload, Lines, FirstData;
    payloads, buf := [], "";
    for c := 0 to |chunks|
      invariant payloads == Payloads(Frames(Concat(chunks[..c])))
      invariant buf == Leftover(Concat(chunks[..c]))
      invariant !HasBlank(buf)
    {
      assert chunks[..c + 1][..c] == chunks[..c];
      ghost var before, seen := Concat(chunks[..c]), payloads;
      FramesOfMore(before, chunks[c]);
      buf := buf + chunks[c];
      ghost var grown := buf;
      PayloadsAppend(Frames(before), Frames(grown));
      var idx := IndexOfBlank(buf);
      while idx >= 0
        invariant idx == IndexOfBlank(buf)
        invariant payloads + Payloads(Frames(buf)) == seen + Payloads(Frames(grown))
        invariant Leftover(buf) == Leftover(grown)
        decreases |buf|
      {
        var frame := buf[..idx];
        buf := buf[idx + 2..];
        idx := IndexOfBlank(buf);
        var dataLine := Payload(frame);
        if dataLine.None? { continue; }
        payloads := payloads + [dataLine.value];
      }
    }
    assert chunks[..|chunks|] == chunks;
  }

  // ----------------------------------------------------------------- the wire

  /** What the server writes: comment frames that prove the transport, and one candidate per frame. */
  datatype Message = Comment(text: string) | Candidate(json: string)

  predicate SingleLine(s: string) { '\n' !in s }

  ghost predicate Writable(m: Message) {
    if m.Comment? then SingleLine(m.text) else SingleLine(m.json)
  }

  function Body(m: Message): string {
    match m
    case Comment(text) => ": " + text
    case Candidate(json) => "event: candidate\n" + ("data: " + json)
  }

  function Wire(messages: seq<Message>): string {
    if messages == [] then "" else Body(messages[0]) + "\n\n" + Wire(messages[1..])
  }

  function Candidates(messages: seq<Message>): seq<string> {
    if messages == [] then []
    else if messages[0].Candidate? then [messages[0].json] + Candidates(messages[1..])
    else Candidates(messages[1..])
  }

  lemma {:induction false} OneLine(s: string)
    requires SingleLine(s)
    ensures Lines(s) == [s]
  {
    if s != "" { OneLine(s[1..]); assert s == [s[0]] + s[1..]; }
  }

  lemma {:induction false} FirstLine(a: string, b: string)
    requires SingleLine(a)
    ensures Lines(a + "\n" + b) == [a] + Lines(b)
  {
    if a == "" {
      assert (a + "\n" + b)[1..] == b;
    } else {
      FirstLine(a[1..], b);
      assert (a + "\n" + b)[1..] == a[1..] + "\n" + b;
      assert a == [a[0]] + a[1..];
    }
  }

  lemma BodyIsClosed(m: Message)
    requires Writable(m)
    ensures Closed(Body(m))
    ensures Payload(Body(m)) == if m.Candidate? then Some(m.json) else None
  {
    hide Lines;
    match m
    case Comment(text) =>
      OneLine(Body(m));
      assert !StartsWith(Body(m), DATA) by { assert Body(m)[0] == ':' && DATA[0] == 'd'; }
      var one := [Body(m)];
      assert !StartsWith(one[0], DATA) && FirstData(one[1..]) == None;
    case Candidate(json) =>
      var event, data := "event: candidate", DATA + json;
      assert Body(m) == event + "\n" + data;
      FirstLine(event, data);
      OneLine(data);
      assert event[0] == 'e';
      assert data[|DATA|..] == json;
      assert FirstData([event] + [data]) == FirstData([data]) by { assert ([event] + [data])[1..] == [data]; }
  }

  /** Written frames read back: every candidate, once, in order, and nothing left in the buffer. */
  lemma {:induction false} WireReadsBack(messages: seq<Message>)
    requires forall m :: m in messages ==> Writable(m)
    ensures Payloads(Frames(Wire(messages))) == Candidates(messages)
    ensures Leftover(Wire(messages)) == ""
  {
    if messages != [] {
      hide Payload, Body;
      BodyIsClosed(messages[0]);
      FirstCut(Body(messages[0]), Wire(messages[1..]));
      WireReadsBack(messages[1..]);
      assert ([Body(messages[0])] + Frames(Wire(messages[1..])))[1..] == Frames(Wire(messages[1..]));
    }
  }

  /** A connection that breaks anywhere has delivered a prefix of the candidates: none altered, none out of order. */
  lemma CutConnectionDeliversPrefix(messages: seq<Message>, received: string)
    requires forall m :: m in messages ==> Writable(m)
    requires received <= Wire(messages)
    ensures Payloads(Frames(received)) <= Candidates(messages)
  {
    hide Payloads, Frames, Wire, Candidates;
    var rest := Wire(messages)[|received|..];
    assert received + rest == Wire(messages);
    FramesOfMore(received, rest);
    PayloadsAppend(Frames(received), Frames(Leftover(received) + rest));
    WireReadsBack(messages);
  }
}
