/** The framed INSTREAM exchange between src/markweave/malware.py and
    scripts/container/fake-clamav.py: a sender that cuts the upload into frames,
    a responder that searches frame by frame, and the reading of its reply, over
    sockets that may hand over the bytes in pieces of any size. */
module Scanner {
  import opened Basics

  const MAX_RESPONSE_BYTES := 4096
  const MAX_STREAM_BYTES := 2_000_000
  const RECEIVE_BYTES := 1024
  const COMMAND_BYTES := 10

  function Text(text: string): (data: Bytes)
    requires forall i :: 0 <= i < |text| ==> text[i] < 128 as char
    ensures |data| == |text|
  {
    seq(|text|, i requires 0 <= i < |text| => text[i] as int as Byte)
  }

  const INSTREAM: Bytes := Text("zINSTREAM") + [0]
  const PING: Bytes := Text("zPING") + [0]
  const PONG: Bytes := Text("PONG") + [0]
  const OK_REPLY: Bytes := Text("stream: OK")
  const FOUND_PREFIX: Bytes := Text("stream: ")
  const FOUND_SUFFIX: Bytes := Text(" FOUND")
  const SIGNATURE: Bytes := Text("Eicar-Test-Signature")

  // ---------------------------------------------------------------------
  // Frames

  /** A 4-byte length, most significant byte first. */
  function Length(size: nat): (data: Bytes)
    requires size < 0x1_0000_0000
    ensures |data| == 4
  {
    var upper := size / 256;
    var high := upper / 256;
    [(high / 256) as Byte, (high % 256) as Byte, (upper % 256) as Byte, (size % 256) as Byte]
  }

  function Size(data: Bytes): nat
    requires |data| == 4
  {
    ((data[0] as int * 256 + data[1] as int) * 256 + data[2] as int) * 256 + data[3] as int
  }

  lemma SizeOfLength(size: nat)
    requires size < 0x1_0000_0000
    ensures Size(Length(size)) == size
  {
    var upper := size / 256;
    var high := upper / 256;
    assert high == (high / 256) * 256 + high % 256;
    assert upper == high * 256 + upper % 256;
    assert size == upper * 256 + size % 256;
  }

  function Frame(data: Bytes): Bytes
    requires |data| < 0x1_0000_0000
  {
    Length(|data|) + data
  }

  function End(content: Bytes, chunk: nat, offset: nat): (end: nat)
    requires 0 < chunk && offset < |content|
    ensures offset < end <= |content| && end - offset <= chunk
  {
    if offset + chunk < |content| then offset + chunk else |content|
  }

  /** The content from an offset on in frames of at most `chunk` bytes. */
  function Frames(content: Bytes, chunk: nat, offset: nat): Bytes
    requires 0 < chunk < 0x1_0000_0000
    decreases |content| - offset
  {
    if |content| <= offset then []
    else
      var end := End(content, chunk, offset);
      Frame(content[offset..end]) + Frames(content, chunk, end)
  }

  /** Everything the scanner sends. */
  function Request(content: Bytes, chunk: nat): Bytes
    requires 0 < chunk < 0x1_0000_0000
  {
    INSTREAM + (Frames(content, chunk, 0) + Length(0))
  }

  lemma Regroup(one: Bytes, two: Bytes, three: Bytes)
    ensures one + two + three == one + (two + three)
  {
  }

  /** `scan`'s loop over the chunks. */
  method Send(content: Bytes, chunk: nat) returns (sent: Bytes)
    requires 0 < chunk < 0x1_0000_0000
    ensures sent == Request(content, chunk)
  {
    sent := INSTREAM;
    var offset := 0;
    while offset < |content|
      invariant sent + Frames(content, chunk, offset) == INSTREAM + Frames(content, chunk, 0)
    {
      var end := End(content, chunk, offset);
      Regroup(sent, Frame(content[offset..end]), Frames(content, chunk, end));
      sent := sent + Frame(content[offset..end]);
      offset := end;
    }
    assert sent + [] == sent;
    Regroup(INSTREAM, Frames(content, chunk, 0), Length(0));
    sent := sent + Length(0);
  }

  // ---------------------------------------------------------------------
  // Plain search

  predicate OccursAt(data: Bytes, marker: Bytes, i: nat) {
    i + |marker| <= |data| && data[i..i + |marker|] == marker
  }

  predicate Contains(data: Bytes, marker: Bytes) {
    exists i :: 0 <= i <= |data| && OccursAt(data, marker, i)
  }

  /** The last bytes of the data, one fewer than the marker has. */
  function Tail(data: Bytes, marker: Bytes): Bytes
    requires marker != []
  {
    if |data| < |marker| then data else data[|data| - (|marker| - 1)..]
  }

  lemma OccursInPrefix(data: Bytes, more: Bytes, marker: Bytes, i: nat)
    requires i + |marker| <= |data|
    ensures OccursAt(data + more, marker, i) <==> OccursAt(data, marker, i)
  {
    assert (data + more)[i..i + |marker|] == data[i..i + |marker|];
  }

  lemma OccursInSuffix(data: Bytes, start: nat, marker: Bytes, i: nat)
    requires start <= i <= |data|
    ensures OccursAt(data, marker, i) <==> OccursAt(data[start..], marker, i - start)
  {
    if i + |marker| <= |data| {
      assert data[start..][i - start..i - start + |marker|] == data[i..i + |marker|];
    }
  }

  /** A new occurrence lies in the kept tail and the new chunk, and only there. */
  lemma SlidingWindow(before: Bytes, chunk: Bytes, marker: Bytes)
    requires marker != []
    ensures Contains(before + chunk, marker) <==>
              Contains(before, marker) || Contains(Tail(before, marker) + chunk, marker)
  {
    var all, window, start := before + chunk, Tail(before, marker) + chunk, |before| - |Tail(before, marker)|;
    assert window == all[start..];
    if Contains(all, marker) {
      var i :| 0 <= i <= |all| && OccursAt(all, marker, i);
      if i + |marker| <= |before| {
        OccursInPrefix(before, chunk, marker, i);
      } else {
        OccursInSuffix(all, start, marker, i);
      }
    }
    if Contains(before, marker) {
      var i :| 0 <= i <= |before| && OccursAt(before, marker, i);
      OccursInPrefix(before, chunk, marker, i);
    }
    if Contains(window, marker) {
      var i :| 0 <= i <= |window| && OccursAt(window, marker, i);
      OccursInSuffix(all, start, marker, i + start);
    }
  }

  lemma TailOfTail(before: Bytes, chunk: Bytes, marker: Bytes)
    requires marker != []
    ensures Tail(Tail(before, marker) + chunk, marker) == Tail(before + chunk, marker)
  {
    var kept := |before| - |Tail(before, marker)|;
    assert Tail(before, marker) + chunk == (before + chunk)[kept..];
  }

  // ---------------------------------------------------------------------
  // What the responder answers, with a plain search of the whole content

  datatype Reply = Pong | Clean | Infected | Hangup

  function Sent(reply: Reply): Bytes {
    match reply
    case Pong => PONG
    case Clean => OK_REPLY + [0]
    case Infected => FOUND_PREFIX + SIGNATURE + FOUND_SUFFIX + [0]
    case Hangup => []
  }

  /** How many bytes the command takes: up to a NUL, at most ten. */
  function CommandEnd(wire: Bytes, read: nat): (end: Option<nat>)
    ensures end.Some? && read <= |wire| ==> end.value <= |wire|
    decreases COMMAND_BYTES - read
  {
    if COMMAND_BYTES <= read then Some(read)
    else if |wire| <= read then None
    else if wire[read] == 0 then Some(read + 1)
    else CommandEnd(wire, read + 1)
  }

  /** The content of the frames up to the empty one, within the stream limit. */
  function Content(wire: Bytes, total: nat): Option<Bytes>
    decreases |wire|
  {
    if |wire| < 4 then None
    else
      var size := Size(wire[..4]);
      if size == 0 then Some([])
      else if MAX_STREAM_BYTES < total + size || |wire| - 4 < size then None
      else
        var rest := Content(wire[4 + size..], total + size);
        if rest.None? then None else Some(wire[4..4 + size] + rest.value)
  }

  /** The answer to everything that arrives on one connection. */
  function Serve(wire: Bytes, marker: Bytes, reject: bool): Reply {
    var end := CommandEnd(wire, 0);
    if end.None? then Hangup
    else if wire[..end.value] == PING then Pong
    else if wire[..end.value] != INSTREAM then Hangup
    else
      var content := Content(wire[end.value..], 0);
      if content.None? then Hangup else if reject && Contains(content.value, marker) then Infected else Clean
  }

  // ---------------------------------------------------------------------
  // The sockets

  datatype Next = Last | Broken | Data(chunk: Bytes)

  class Socket {
    /** What is still to arrive before the peer closes. */
    var rest: Bytes

    constructor (wire: Bytes)
      ensures rest == wire
    {
      rest := wire;
    }

    /** `recv`: some of the next bytes, and nothing only at the end. */
    method Recv(limit: nat) returns (chunk: Bytes)
      requires 0 < limit
      modifies this
      ensures old(rest) == chunk + rest && |chunk| <= limit
      ensures chunk == [] <==> old(rest) == []
    {
      var size: int := *;
      var most := if |rest| < limit then |rest| else limit;
      if size <= 0 || most < size {
        size := most;
      }
      chunk, rest := rest[..size], rest[size..];
    }

    /** `_read_exact`: the next bytes, however they are split. */
    method ReadExact(size: nat) returns (data: Option<Bytes>)
      modifies this
      ensures data == if size <= |old(rest)| then Some(old(rest)[..size]) else None
      ensures size <= |old(rest)| ==> rest == old(rest)[size..]
    {
      var read: Bytes := [];
      ghost var wire := rest;
      while |read| < size
        invariant wire == read + rest && |read| <= size
        decreases size - |read|
      {
        var chunk := Recv(size - |read|);
        if chunk == [] {
          return None;
        }
        read := read + chunk;
      }
      data := Some(read);
    }

    /** `_read_command`, byte by byte. */
    method ReadCommand() returns (command: Option<Bytes>)
      modifies this
      ensures var end := CommandEnd(old(rest), 0);
              command == if end.None? then None else Some(old(rest)[..end.value])
      ensures command.Some? ==> rest == old(rest)[CommandEnd(old(rest), 0).value..]
    {
      var read: Bytes := [];
      ghost var wire := rest;
      while |read| < COMMAND_BYTES
        invariant |read| <= |wire| && read == wire[..|read|] && rest == wire[|read|..]
        invariant CommandEnd(wire, 0) == CommandEnd(wire, |read|)
        decreases COMMAND_BYTES - |read|
      {
        var byte := ReadExact(1);
        if byte.None? {
          return None;
        }
        ghost var at := |read|;
        assert byte.value == [wire[at]];
        assert CommandEnd(wire, at) == if wire[at] == 0 then Some(at + 1) else CommandEnd(wire, at + 1);
        read := read + byte.value;
        assert read == wire[..at + 1];
        if byte.value == [0] {
          return Some(read);
        }
      }
      command := Some(read);
    }

    /** `Handler.handle`: searches frame by frame and keeps only a short tail, and
        answers as if it had the whole content. */
    method Handle(marker: Bytes, reject: bool) returns (reply: Reply)
      requires marker != []
      modifies this
      ensures reply == Serve(old(rest), marker, reject)
    {
      var command := ReadCommand();
      if command.None? {
        return Hangup;
      }
      if command.value == PING {
        return Pong;
      }
      if command.value != INSTREAM {
        return Hangup;
      }
      reply := ReadFrames(marker, reject);
    }

    /** One frame within the stream limit. */
    method NextFrame(total: nat) returns (next: Next)
      modifies this
      ensures next.Last? ==> Content(old(rest), total) == Some([])
      ensures next.Broken? ==> Content(old(rest), total) == None
      ensures next.Data? ==> |rest| < |old(rest)|
      ensures next.Data? ==> Content(old(rest), total) == Joined(next.chunk, Content(rest, total + |next.chunk|))
    {
      ghost var frame := rest;
      var header := ReadExact(4);
      if header.None? {
        return Broken;
      }
      var size := Size(header.value);
      if size == 0 {
        return Last;
      }
      if MAX_STREAM_BYTES < total + size {
        return Broken;
      }
      var chunk := ReadExact(size);
      if chunk.None? {
        return Broken;
      }
      assert chunk.value == frame[4..4 + size] && rest == frame[4 + size..];
      FrameRead(frame, total);
      next := Data(chunk.value);
    }

    method ReadFrames(marker: Bytes, reject: bool) returns (reply: Reply)
      requires marker != []
      modifies this
      ensures var content := Content(old(rest), 0);
              reply == if content.None? then Hangup else if reject && Contains(content.value, marker) then Infected
                       else Clean
    {
      var total, tail, infected := 0, [], false;
      ghost var wire, consumed: Bytes := rest, [];
      JoinedNothing(Content(rest, 0));
      while true
        invariant total == |consumed| && Content(wire, 0) == Joined(consumed, Content(rest, total))
        invariant reject ==> tail == Tail(consumed, marker)
        invariant infected == (reject && Contains(consumed, marker))
        decreases |rest|
      {
        var next := NextFrame(total);
        if next.Broken? {
          return Hangup;
        }
        if next.Last? {
          break;
        }
        total := total + |next.chunk|;
        if reject {
          SlidingWindow(consumed, next.chunk, marker);
          TailOfTail(consumed, next.chunk, marker);
          var window := tail + next.chunk;
          infected := infected || Contains(window, marker);
          tail := Tail(window, marker);
        }
        JoinedMore(consumed, next.chunk, Content(rest, total));
        consumed := consumed + next.chunk;
      }
      assert consumed + [] == consumed;
      reply := if infected then Infected else Clean;
    }
  }

  /** Content that was read already, before the rest if there is any. */
  function Joined(consumed: Bytes, rest: Option<Bytes>): Option<Bytes> {
    if rest.None? then None else Some(consumed + rest.value)
  }

  lemma JoinedNothing(rest: Option<Bytes>)
    ensures Joined([], rest) == rest
  {
    if rest.Some? {
      assert [] + rest.value == rest.value;
    }
  }

  lemma FrameRead(frame: Bytes, total: nat)
    requires 4 <= |frame| && Size(frame[..4]) != 0
    requires total + Size(frame[..4]) <= MAX_STREAM_BYTES && Size(frame[..4]) <= |frame| - 4
    ensures var size := Size(frame[..4]);
            Content(frame, total) == Joined(frame[4..4 + size], Content(frame[4 + size..], total + size))
  {
  }

  lemma JoinedMore(consumed: Bytes, chunk: Bytes, rest: Option<Bytes>)
    ensures Joined(consumed, Joined(chunk, rest)) == Joined(consumed + chunk, rest)
  {
    if rest.Some? {
      Regroup(consumed, chunk, rest.value);
    }
  }

  // ---------------------------------------------------------------------
  // Sender and responder together

  /** The end mark decodes to nothing. */
  lemma EndDecodes(total: nat)
    ensures Content(Length(0), total) == Some([])
  {
    SizeOfLength(0);
    assert Length(0)[..4] == Length(0);
  }

  /** The frames decode to exactly the content, up to the stream limit. */
  lemma {:induction false} FramesDecode(content: Bytes, chunk: nat, offset: nat)
    requires 0 < chunk < 0x1_0000_0000 && offset <= |content| && offset <= MAX_STREAM_BYTES
    ensures Content(Frames(content, chunk, offset) + Length(0), offset)
            == if |content| <= MAX_STREAM_BYTES then Some(content[offset..]) else None
    decreases |content| - offset
  {
    if offset == |content| {
      EndDecodes(offset);
      assert [] + Length(0) == Length(0);
    } else {
      var end := End(content, chunk, offset);
      var data, rest := content[offset..end], Frames(content, chunk, end) + Length(0);
      Regroup(Frame(data), Frames(content, chunk, end), Length(0));
      FrameDecodes(data, rest, Frames(content, chunk, offset) + Length(0), offset);
      if end <= MAX_STREAM_BYTES {
        FramesDecode(content, chunk, end);
        assert data + content[end..] == content[offset..];
      }
    }
  }

  lemma FrameDecodes(data: Bytes, rest: Bytes, wire: Bytes, total: nat)
    requires 0 < |data| < 0x1_0000_0000 && wire == Frame(data) + rest
    ensures Content(wire, total)
            == if MAX_STREAM_BYTES < total + |data| then None else Joined(data, Content(rest, total + |data|))
  {
    SizeOfLength(|data|);
    assert wire[..4] == Length(|data|);
    assert wire[4..4 + |data|] == data && wire[4 + |data|..] == rest;
    if total + |data| <= MAX_STREAM_BYTES {
      FrameRead(wire, total);
    }
  }

  lemma RequestCommand(rest: Bytes)
    ensures CommandEnd(INSTREAM + rest, 0) == Some(COMMAND_BYTES)
    ensures (INSTREAM + rest)[..COMMAND_BYTES] == INSTREAM && (INSTREAM + rest)[COMMAND_BYTES..] == rest
    ensures INSTREAM != PING
  {
    var wire := INSTREAM + rest;
    assert forall i :: 0 <= i < 9 ==> wire[i] != 0 && wire[9] == 0;
    var read := 9;
    assert CommandEnd(wire, 9) == Some(10);
    while 0 < read
      invariant 0 <= read <= 9 && CommandEnd(wire, read) == Some(10)
    {
      read := read - 1;
    }
  }

  /** For every content, chunk size and splitting the responder reports an
      infection exactly when the marker occurs in the content, also across
      frames; beyond the stream limit it hangs up. */
  lemma StreamingIsPlainSearch(content: Bytes, chunk: nat, marker: Bytes, reject: bool)
    requires 0 < chunk < 0x1_0000_0000
    ensures Serve(Request(content, chunk), marker, reject)
            == if MAX_STREAM_BYTES < |content| then Hangup
               else if reject && Contains(content, marker) then Infected else Clean
  {
    var rest := Frames(content, chunk, 0) + Length(0);
    RequestCommand(rest);
    FramesDecode(content, chunk, 0);
    assert content[0..] == content;
  }

  // ---------------------------------------------------------------------
  // Reading the reply

  datatype Verdict = Accepted | Detected | Unavailable

  predicate HasBreak(data: Bytes) {
    exists i :: 0 <= i < |data| && (data[i] == 10 || data[i] == 13)
  }

  /** Exactly one NUL, at the end. */
  predicate OneNulLast(data: Bytes) {
    data != [] && data[|data| - 1] == 0 && forall i :: 0 <= i < |data| - 1 ==> data[i] != 0
  }

  predicate Printable(data: Bytes) {
    forall i :: 0 <= i < |data| ==> 0x20 <= data[i] <= 0x7E
  }

  predicate StartsWith(data: Bytes, prefix: Bytes) {
    |prefix| <= |data| && data[..|prefix|] == prefix
  }

  predicate EndsWith(data: Bytes, suffix: Bytes) {
    |suffix| <= |data| && data[|data| - |suffix|..] == suffix
  }

  /** What `scan` makes of a response; prefix and suffix may share their space. */
  function Judge(response: Bytes): Verdict {
    if response == OK_REPLY then Accepted
    else if StartsWith(response, FOUND_PREFIX) && EndsWith(response, FOUND_SUFFIX) then
      var signature := if |FOUND_PREFIX| + |FOUND_SUFFIX| <= |response|
                       then response[|FOUND_PREFIX|..|response| - |FOUND_SUFFIX|] else [];
      if signature != [] && Printable(signature) then Detected else Unavailable
    else Unavailable
  }

  /** What was received: only a single NUL at the end is a response. */
  function JudgeReceived(received: Bytes): Verdict {
    if OneNulLast(received) then Judge(received[..|received| - 1]) else Unavailable
  }

  /** The verdict on all bytes of a reply up to the close. */
  function VerdictOn(reply: Bytes): Verdict {
    var head := if |reply| <= MAX_RESPONSE_BYTES + 1 then reply else reply[..MAX_RESPONSE_BYTES + 1];
    if HasBreak(head) then Unavailable else JudgeReceived(head)
  }

  /** A response with a line break is never good. */
  lemma BreakIsUnavailable(received: Bytes)
    requires HasBreak(received)
    ensures JudgeReceived(received) == Unavailable
  {
    if OneNulLast(received) {
      var response := received[..|received| - 1];
      var i :| 0 <= i < |received| && (received[i] == 10 || received[i] == 13);
      assert response[i] == received[i];
      BreakSpoils(response, i);
    }
  }

  lemma BreakSpoils(response: Bytes, i: nat)
    requires i < |response| && (response[i] == 10 || response[i] == 13)
    ensures Judge(response) == Unavailable
  {
    assert !HasBreak(OK_REPLY) && !HasBreak(FOUND_PREFIX) && !HasBreak(FOUND_SUFFIX);
    if StartsWith(response, FOUND_PREFIX) && EndsWith(response, FOUND_SUFFIX) {
      var prefix, suffix := |FOUND_PREFIX|, |FOUND_SUFFIX|;
      assert forall k :: 0 <= k < prefix ==> response[k] == FOUND_PREFIX[k];
      assert forall k :: 0 <= k < suffix ==>
        response[|response| - suffix + k] == response[|response| - suffix..][k] == FOUND_SUFFIX[k];
      if prefix <= i < |response| - suffix {
        assert response[prefix..|response| - suffix][i - prefix] == response[i];
      }
    }
  }

  /** `_receive_response`: pieces up to a line break, the bound or the close. */
  method ReceiveResponse(socket: Socket) returns (response: Bytes)
    modifies socket
    ensures old(socket.rest) == response + socket.rest && |response| <= MAX_RESPONSE_BYTES + 1
    ensures HasBreak(response) || |response| == MAX_RESPONSE_BYTES + 1 || socket.rest == []
  {
    response := [];
    ghost var reply := socket.rest;
    while |response| <= MAX_RESPONSE_BYTES
      invariant reply == response + socket.rest && |response| <= MAX_RESPONSE_BYTES + 1
      decreases MAX_RESPONSE_BYTES + 1 - |response|
    {
      var limit := MAX_RESPONSE_BYTES + 1 - |response|;
      var chunk := socket.Recv(if limit < RECEIVE_BYTES then limit else RECEIVE_BYTES);
      if chunk == [] {
        return;
      }
      Regroup(response, chunk, socket.rest);
      response := response + chunk;
      if HasBreak(response) {
        return;
      }
    }
  }

  /** The pieces the socket hands over do not matter, although the loop stops at
      the first piece with a line break. */
  method ReceiveVerdict(socket: Socket) returns (verdict: Verdict)
    modifies socket
    ensures verdict == VerdictOn(old(socket.rest))
  {
    var response := ReceiveResponse(socket);
    verdict := JudgeReceived(response);
    if HasBreak(response) {
      BreakInHead(response, socket.rest);
      BreakIsUnavailable(response);
    } else {
      HeadRead(response, socket.rest);
    }
  }

  lemma BreakInHead(response: Bytes, rest: Bytes)
    requires HasBreak(response) && |response| <= MAX_RESPONSE_BYTES + 1
    ensures VerdictOn(response + rest) == Unavailable
  {
    var reply := response + rest;
    var head := if |reply| <= MAX_RESPONSE_BYTES + 1 then reply else reply[..MAX_RESPONSE_BYTES + 1];
    var i :| 0 <= i < |response| && (response[i] == 10 || response[i] == 13);
    assert head[i] == response[i];
  }

  lemma HeadRead(response: Bytes, rest: Bytes)
    requires !HasBreak(response) && |response| <= MAX_RESPONSE_BYTES + 1
    requires |response| == MAX_RESPONSE_BYTES + 1 || rest == []
    ensures VerdictOn(response + rest) == JudgeReceived(response)
  {
    var reply := response + rest;
    if rest == [] {
      assert reply == response;
    } else {
      assert reply[..MAX_RESPONSE_BYTES + 1] == response;
    }
  }

  /** An upload is accepted exactly when the whole reply is the one good answer. */
  lemma AcceptedExactly(reply: Bytes)
    ensures VerdictOn(reply) == Accepted <==> reply == OK_REPLY + [0]
  {
    var good := OK_REPLY + [0];
    assert |good| == 11 && good[..10] == OK_REPLY;
    assert !HasBreak(good) && OneNulLast(good);
    var head := if |reply| <= MAX_RESPONSE_BYTES + 1 then reply else reply[..MAX_RESPONSE_BYTES + 1];
    if VerdictOn(reply) == Accepted {
      assert head == head[..|head| - 1] + [0];
      assert head == good;
    }
  }

  /** End to end: an upload within the limit is accepted when the marker does not
      occur in it and detected when it does. */
  lemma VerdictIsPlainSearch(content: Bytes, chunk: nat, marker: Bytes)
    requires 0 < chunk < 0x1_0000_0000
    ensures VerdictOn(Sent(Serve(Request(content, chunk), marker, true)))
            == if MAX_STREAM_BYTES < |content| then Unavailable else if Contains(content, marker) then Detected
               else Accepted
  {
    StreamingIsPlainSearch(content, chunk, marker, true);
    AcceptedExactly(OK_REPLY + [0]);
    FoundIsDetected();
  }

  lemma FoundIsDetected()
    ensures VerdictOn(Sent(Infected)) == Detected
  {
    var response := FOUND_PREFIX + SIGNATURE + FOUND_SUFFIX;
    var reply := Sent(Infected);
    assert reply == response + [0] && reply[..|reply| - 1] == response;
    assert response[..|FOUND_PREFIX|] == FOUND_PREFIX && response[|response| - |FOUND_SUFFIX|..] == FOUND_SUFFIX;
    assert response[|FOUND_PREFIX|..|response| - |FOUND_SUFFIX|] == SIGNATURE;
    assert Printable(SIGNATURE) && Printable(FOUND_PREFIX) && Printable(FOUND_SUFFIX);
    assert Printable(response);
    assert !HasBreak(reply) && OneNulLast(reply);
  }
}
