/** Newline framing of the control plane (elements-ipc `protocol.rs`,
    `client.py`): one message a line, whatever the chunks. A message is its
    bytes; the JSON inside is not modelled. */
module Framing {
  import opened LittleEndian
  import opened Values

  const MAX_MESSAGE_BYTES: nat := 1024 * 1024
  const CHUNK: nat := 65536
  const NEWLINE: bv8 := 10
  const CARRIAGE_RETURN: bv8 := 13

  /** How far the first newline is, or the length of a stream without one. */
  function ToNewline(s: Bytes): (n: nat)
    ensures n <= |s| && (n < |s| ==> s[n] == NEWLINE)
    ensures forall i :: 0 <= i < n ==> s[i] != NEWLINE
  {
    if s == [] || s[0] == NEWLINE then 0 else
      var n := ToNewline(s[1..]);
      assert forall i :: 1 <= i < n + 1 ==> s[i] == s[1..][i - 1];
      n + 1
  }

  lemma {:induction false} ToNewlineIs(s: Bytes, n: nat)
    requires n < |s| && s[n] == NEWLINE && forall i :: 0 <= i < n ==> s[i] != NEWLINE
    ensures ToNewline(s) == n
  {
    if ToNewline(s) < n { assert s[ToNewline(s)] == NEWLINE; }
  }

  /** A line without its newline, and without the carriage return before it. */
  function Trimmed(line: Bytes): Bytes {
    var a := if |line| > 0 && line[|line| - 1] == NEWLINE then line[..|line| - 1] else line;
    if |a| > 0 && a[|a| - 1] == CARRIAGE_RETURN then a[..|a| - 1] else a
  }

  datatype FramingError = OversizedFrame(bytes: nat)

  /** What the next read of a stream gives, and what it leaves unread. */
  datatype Outcome = Outcome(result: Result<Option<Bytes>, FramingError>, rest: Bytes)

  function Least(a: nat, b: nat): nat {
    if a <= b then a else b
  }

  /** One capped line: up to its newline, the end, or one byte past the limit. */
  function LineLength(s: Bytes): (n: nat)
    ensures n <= |s| && (s != [] ==> n > 0)
  {
    Least(Least(ToNewline(s) + 1, |s|), MAX_MESSAGE_BYTES + 1)
  }

  /** The next message by its lines: blank ones are skipped, and a line that
      outgrows the limit ends the reading. */
  function NextMessage(s: Bytes): (o: Outcome)
    ensures |o.rest| <= |s| && (o.result.Ok? && o.result.value.Some? ==> |o.rest| < |s|)
    decreases |s|
  {
    var n := LineLength(s);
    if n == 0 then Outcome(Ok(None), s)
    else if n > MAX_MESSAGE_BYTES then Outcome(Err(OversizedFrame(n)), s[n..])
    else if Trimmed(s[..n]) == [] then NextMessage(s[n..])
    else Outcome(Ok(Some(Trimmed(s[..n]))), s[n..])
  }

  /** A byte stream being consumed. */
  class Stream {
    var unread: Bytes

    constructor (bytes: Bytes)
      ensures unread == bytes
    {
      unread := bytes;
    }

    /** `read_until` a newline, through a limit. */
    method ReadUntilNewline(limit: nat) returns (line: Bytes)
      modifies this
      ensures |line| == Least(Least(ToNewline(old(unread)) + 1, |old(unread)|), limit)
      ensures line + unread == old(unread)
    {
      var n := 0;
      while n < |unread| && n < limit && (n == 0 || unread[n - 1] != NEWLINE)
        invariant n <= |unread| && n <= limit && unread == old(unread)
        invariant forall i :: 0 <= i < n - 1 ==> unread[i] != NEWLINE
      {
        n := n + 1;
      }
      if n > 0 && unread[n - 1] == NEWLINE { ToNewlineIs(unread, n - 1); }
      line := unread[..n];
      unread := unread[n..];
    }

    /** `read_message`. */
    method ReadMessage() returns (r: Result<Option<Bytes>, FramingError>)
      modifies this
      ensures Outcome(r, unread) == NextMessage(old(unread))
    {
      while true
        invariant NextMessage(unread) == NextMessage(old(unread))
        decreases |unread|
      {
        ghost var before := unread;
        var line := ReadUntilNewline(MAX_MESSAGE_BYTES + 1);
        assert line == before[..|line|] && unread == before[|line|..];
        if |line| == 0 { return Ok(None); }
        if |line| > MAX_MESSAGE_BYTES { return Err(OversizedFrame(|line|)); }
        var trimmed := Trimmed(line);
        if trimmed != [] { return Ok(Some(trimmed)); }
      }
    }

    /** `recv`: at least one of the bytes that are left, at most `CHUNK`; none
        only at the end. How many is up to the transport. */
    method Receive() returns (chunk: Bytes)
      modifies this
      ensures chunk + unread == old(unread) && |chunk| <= CHUNK && (chunk == [] <==> old(unread) == [])
    {
      if unread == [] { return []; }
      var n: int := *;
      if n < 1 || n > |unread| || n > CHUNK { n := 1; }
      chunk := unread[..n];
      unread := unread[n..];
    }
  }

  /** `write_message`'s line. */
  function Line(m: Bytes): Bytes {
    m + [NEWLINE]
  }

  // ------------------------------------------------------------ streams of messages

  /** What a peer sends: messages, and keepalive lines between them. */
  datatype Item = Blank | CrLf | Message(m: Bytes)
  {
    function Encoded(): Bytes {
      match this
      case Blank => [NEWLINE]
      case CrLf => [CARRIAGE_RETURN, NEWLINE]
      case Message(m) => Line(m)
    }
  }

  /** What `write_message` is given: compact JSON holds no newline and does not
      end in a carriage return, and the line fits the limit. */
  ghost predicate Sendable(m: Bytes) {
    && m != [] && |m| + 1 <= 1_048_576 && m[|m| - 1] != 13
    && forall i :: 0 <= i < |m| ==> m[i] != 10
  }

  ghost predicate AllSendable(items: seq<Item>) {
    forall i :: 0 <= i < |items| && items[i].Message? ==> Sendable(items[i].m)
  }

  function Sent(items: seq<Item>): Bytes {
    if items == [] then [] else items[0].Encoded() + Sent(items[1..])
  }

  /** The first line of what is sent is the first item's. */
  lemma FirstLine(item: Item, rest: Bytes)
    requires item.Message? ==> Sendable(item.m)
    ensures item.Encoded() == match item case Blank => [10] case CrLf => [13, 10] case Message(m) => m + [10]
    ensures var s := item.Encoded() + rest;
      LineLength(s) == |item.Encoded()| <= MAX_MESSAGE_BYTES && s[..LineLength(s)] == item.Encoded()
        && s[LineLength(s)..] == rest
    ensures Trimmed(item.Encoded()) == if item.Message? then item.m else []
  {
    var line := item.Encoded();
    ToNewlineIs(line + rest, |line| - 1);
  }

  /** So the next message read is that item's, or what follows a keepalive. */
  lemma FirstMessage(item: Item, rest: Bytes)
    requires item.Message? ==> Sendable(item.m)
    ensures NextMessage(item.Encoded() + rest) == if item.Message? then Outcome(Ok(Some(item.m)), rest)
      else NextMessage(rest)
  {
    hide LineLength; hide Trimmed; hide Item.Encoded;
    FirstLine(item, rest);
    SomeBytes(item);
  }

  lemma SomeBytes(item: Item)
    ensures item.Encoded() != []
  {
  }

  /** The messages among the items, in order. */
  function Messages(items: seq<Item>): seq<Bytes> {
    if items == [] then [] else
      (if items[0].Message? then [items[0].m] else []) + Messages(items[1..])
  }

  /** Reading until the stream ends or fails: what was read, and whether the
      end was clean. */
  function ReadAll(s: Bytes): (seq<Bytes>, bool)
    decreases |s|
  {
    var o := NextMessage(s);
    match o.result
    case Err(_) => ([], false)
    case Ok(None) => ([], true)
    case Ok(Some(m)) => var (more, clean) := ReadAll(o.rest); ([m] + more, clean)
  }

  lemma NothingSent()
    ensures ReadAll([]) == ([], true)
  {
  }

  /** A stream of messages, with keepalive lines anywhere between them, is read
      back as exactly those messages, then a clean end. */
  lemma {:induction false} ReadsBack(items: seq<Item>)
    requires AllSendable(items)
    ensures ReadAll(Sent(items)) == (Messages(items), true)
    decreases |items|
  {
    hide NextMessage; hide Item.Encoded; hide Sendable;
    if items == [] {
      NothingSent();
    } else {
      FirstMessage(items[0], Sent(items[1..]));
      assert AllSendable(items[1..]) by {
        assert forall i :: 0 <= i < |items[1..]| ==> items[1..][i] == items[i + 1];
      }
      ReadsBack(items[1..]);
      assert [] + Messages(items[1..]) == Messages(items[1..]);
    }
  }

  lemma OneSent(m: Bytes)
    ensures Sent([Message(m)]) == Line(m) && Messages([Message(m)]) == [m]
  {
    assert [Message(m)][1..] == [];
    assert Line(m) + [] == Line(m);
  }

  lemma {:induction false} SentMore(items: seq<Item>, m: Bytes)
    ensures Sent(items + [Message(m)]) == Sent(items) + Line(m)
    ensures Messages(items + [Message(m)]) == Messages(items) + [m]
  {
    hide Item.Encoded; hide Line;
    if items == [] {
      OneSent(m);
    } else {
      SentMore(items[1..], m);
      assert (items + [Message(m)])[1..] == items[1..] + [Message(m)];
    }
  }

  /** `write_message`: whatever messages and keepalives the stream held before,
      its reader gets those messages and then this one. */
  method WriteMessage(sink: Bytes, m: Bytes) returns (r: Bytes)
    ensures r == sink + m + [10]
    ensures forall items :: Sent(items) == sink && AllSendable(items) && Sendable(m) ==>
      ReadAll(r) == (Messages(items) + [m], true)
  {
    var line := m;
    line := line + [NEWLINE];
    r := sink + line;
    forall items | Sent(items) == sink && AllSendable(items) && Sendable(m)
      ensures ReadAll(r) == (Messages(items) + [m], true)
    {
      SentMore(items, m);
      ReadsBack(items + [Message(m)]);
    }
  }

  /** A line that outgrows the limit is an error that says so, whatever comes first. */
  lemma OversizedIsRefused(m: Bytes, rest: Bytes)
    requires |m| >= 1_048_576 && forall i :: 0 <= i < |m| ==> m[i] != 10
    ensures NextMessage(m + [10] + rest).result == Err(OversizedFrame(1_048_577))
  {
    ToNewlineIs(Line(m) + rest, |m|);
  }

  // ------------------------------------------------------------ the add-on's client

  datatype ClientError = Closed | Oversized

  /** `ControlClient`: a socket and what it has delivered beyond the last line. */
  class ControlClient {
    const sock: Stream
    var buf: Bytes

    constructor (sock: Stream)
      ensures this.sock == sock && buf == []
    {
      this.sock, buf := sock, [];
    }

    /** Everything the peer has sent that no call has returned yet. */
    ghost function Pending(): Bytes
      reads this, sock
    {
      buf + sock.unread
    }

    /** `_recv`: the next line, for every way the stream may be cut in chunks.
        It fails only when the stream ends first or the buffer outgrows the
        limit, which lines a whole chunk shorter than the limit cannot do. */
    method Recv() returns (r: Result<Bytes, ClientError>)
      requires |buf| <= MAX_MESSAGE_BYTES
      modifies this, sock
      ensures r.Ok? ==> |buf| <= MAX_MESSAGE_BYTES && ToNewline(old(Pending())) < |old(Pending())|
      ensures r.Ok? ==> r.value == old(Pending())[..ToNewline(old(Pending()))]
      ensures r.Ok? ==> Pending() == old(Pending())[ToNewline(old(Pending())) + 1..]
      ensures r == Err(Closed) ==> ToNewline(old(Pending())) == |old(Pending())|
      ensures var n := ToNewline(old(Pending()));
        n + 65_536 <= 1_048_576 && n < |old(Pending())| ==> r.Ok?
    {
      ghost var pending := Pending();
      while ToNewline(buf) == |buf|
        invariant Pending() == pending && |buf| <= MAX_MESSAGE_BYTES
        decreases |sock.unread|
      {
        var chunk := sock.Receive();
        if chunk == [] {
          assert buf + [] == buf;
          return Err(Closed);
        }
        SplitNewline(buf, chunk + sock.unread);
        assert buf + (chunk + sock.unread) == buf + chunk + sock.unread;
        buf := buf + chunk;
        if |buf| > MAX_MESSAGE_BYTES { return Err(Oversized); }
      }
      var n := ToNewline(buf);
      ToNewlineIs(pending, n);
      r := Ok(buf[..n]);
      buf := buf[n + 1..];
    }
  }

  /** A stream whose start has no newline has its first one after that start. */
  lemma SplitNewline(a: Bytes, b: Bytes)
    requires ToNewline(a) == |a|
    ensures ToNewline(a + b) >= |a|
  {
    if ToNewline(a + b) < |a| { assert a[ToNewline(a + b)] == NEWLINE; }
  }
}
