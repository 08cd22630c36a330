/** The handler of one connection: it answers every chunk it receives until the peer closes or fails. */
module Echo {

  const MSG_LEN_MAX := 2000

  /** What a receive call delivers: an error, the end of the connection, or between 1 and `MSG_LEN_MAX` characters. */
  datatype Recv = Error | End | Data(chunk: string)

  predicate Receivable(script: seq<Recv>) {
    forall i :: 0 <= i < |script| && script[i].Data? ==> 1 <= |script[i].chunk| <= MSG_LEN_MAX
  }

  /** Copies `chars` into `buffer` from `at` on. */
  method CopyTo(buffer: array<char>, at: nat, chars: string)
    requires at + |chars| <= buffer.Length
    modifies buffer
    ensures buffer[at..at + |chars|] == chars
    ensures buffer[..at] == old(buffer[..at]) && buffer[at + |chars|..] == old(buffer[at + |chars|..])
  {
    forall i | 0 <= i < |chars| {
      buffer[at + i] := chars[i];
    }
  }

  predicate Inside(size: nat, at: int) {
    0 <= at < size
  }

  /** Reads from `buffer` at any offset: outside the buffer the result is anything. */
  method ReadAt(buffer: array<char>, at: int) returns (c: char, stray: bool)
    ensures stray <==> !Inside(buffer.Length, at)
    ensures !stray ==> c == buffer[at]
  {
    stray := !Inside(buffer.Length, at);
    c := *;
    if !stray {
      c := buffer[at];
    }
  }

  /** The four characters that the end-of-message test compares lie in the buffer. */
  predicate EofReadsInside(size: nat, len: nat) {
    Inside(size, len - 4) && Inside(size, len - 3) && Inside(size, len - 2) && Inside(size, len - 1)
  }

  /** Of the lengths a receive call delivers, exactly those from four on keep the test inside the buffer. */
  lemma EofReadsIff(len: nat)
    requires 1 <= len <= MSG_LEN_MAX
    ensures EofReadsInside(MSG_LEN_MAX, len) <==> len >= 4
  {
  }

  /**
   * The end-of-message test, from the fourth character before the end on and only as far as the characters
   * match. On fewer than four characters it begins in front of the buffer, whatever it then answers.
   */
  method DetectEof(msg: array<char>, len: nat) returns (eof: bool, stray: bool)
    requires len <= msg.Length
    ensures stray <==> !EofReadsInside(msg.Length, len)
    ensures !stray ==> (eof <==> msg[len - 4..len] == "\r\n\r\n")
  {
    var c, outside := ReadAt(msg, len - 4);
    eof, stray := c == '\r', outside;
    if eof {
      c, outside := ReadAt(msg, len - 3);
      eof, stray := c == '\n', stray || outside;
    }
    if eof {
      c, outside := ReadAt(msg, len - 2);
      eof, stray := c == '\r', stray || outside;
    }
    if eof {
      c, outside := ReadAt(msg, len - 1);
      eof, stray := c == '\n', stray || outside;
    }
  }

  /** The answer to the first `ret` characters of `msg`. */
  method Compose(msg: array<char>, msgBack: array<char>, ret: nat) returns (reply: string)
    requires msg != msgBack && ret <= msg.Length == MSG_LEN_MAX && msgBack.Length == MSG_LEN_MAX + 4
    modifies msgBack
    ensures reply == "OK! " + msg[..ret]
  {
    msgBack[0], msgBack[1], msgBack[2], msgBack[3] := 'O', 'K', '!', ' ';
    assert msgBack[..4] == "OK! ";
    CopyTo(msgBack, 4, msg[..ret]);
    reply := msgBack[..ret + 4];
    assert reply == msgBack[..4] + msgBack[4..ret + 4];
  }

  /** Every chunk received so far has been answered; an end or error has been received only if `stopped`. */
  ghost predicate Answered(script: seq<Recv>, sends: seq<string>, received: nat, stopped: bool) {
    && received <= |script| && received == (if stopped then |sends| + 1 else |sends|)
    && (forall i :: 0 <= i < |sends| ==> script[i].Data? && sends[i] == "OK! " + script[i].chunk)
    && (stopped ==> !script[|sends|].Data?)
  }

  /** One of the first `n` answers is a chunk of fewer than four characters. */
  predicate Short(script: seq<Recv>, n: nat) {
    exists i :: 0 <= i < n && i < |script| && script[i].Data? && |script[i].chunk| < 4
  }

  /**
   * Serves the connection. `script` is what the receive calls deliver, one after the other; the handler
   * waits for ever in a call for which there is nothing. `stray` tells whether it has read outside its buffer.
   *
   * Whatever the end-of-message test says, each chunk in front of the first end or error is answered by one
   * message, at once and in order, and the connection is closed right after that end or error. A read goes
   * astray if and only if one of these chunks has fewer than four characters.
   */
  method ServerThread(script: seq<Recv>) returns (sends: seq<string>, received: nat, closed: bool, stray: bool)
    requires Receivable(script)
    ensures |sends| <= |script|
    ensures forall i :: 0 <= i < |sends| ==> script[i].Data? && sends[i] == "OK! " + script[i].chunk
    ensures closed <==> exists i :: 0 <= i < |script| && !script[i].Data?
    ensures if closed then received == |sends| + 1 <= |script| && !script[|sends|].Data?
            else received == |sends| == |script|
    ensures stray <==> Short(script, |sends|)
  {
    var msg := new char[MSG_LEN_MAX];
    var msgBack := new char[MSG_LEN_MAX + 4];
    var closeCon := false;
    sends, received, closed, stray := [], 0, false, false;
    msg[MSG_LEN_MAX - 1] := '\0';
    while !closeCon
      invariant fresh(msg) && fresh(msgBack)
      invariant Answered(script, sends, received, closeCon)
      invariant stray <==> Short(script, |sends|)
      decreases |script| - received
    {
      ghost var turn := received;
      var repeat := true;
      while repeat
        invariant Answered(script, sends, received, closeCon)
        invariant stray <==> Short(script, |sends|)
        invariant repeat ==> !closeCon
        invariant received > turn || repeat
        decreases |script| - received
      {
        if received == |script| { return; }
        var answer := script[received];
        received := received + 1;
        if !answer.Data? {
          closeCon := true;
          break;
        }
        var ret := |answer.chunk|;
        CopyTo(msg, 0, answer.chunk);
        var reply := Compose(msg, msgBack, ret);
        sends := sends + [reply];
        var eof, outside := DetectEof(msg, ret);
        EofReadsIff(ret);
        stray := stray || outside;
        repeat := !eof;
      }
    }
    closed := true;
  }

  /** That happens: a peer may send one, two or three characters. */
  lemma ShortHappens(text: string)
    requires 1 <= |text| <= 3
    ensures Receivable([Data(text)]) && Short([Data(text)], 1) && !EofReadsInside(MSG_LEN_MAX, |text|)
  {
    assert [Data(text)][0].Data?;
  }
}
