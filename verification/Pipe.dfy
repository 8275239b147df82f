/** The shell's private pipe: `Protocol::receive` and `Protocol::command` over a stream
    that arrives in reads of any size, under any timing. */
module Pipe {
  import opened Options
  import opened Framing
  import opened Readiness

  datatype Why = Stopped | BadResponse | ClosedPipe | TooLong | BrokenPipe

  datatype Received = Got(message: Message) | TimedOut | Failed(why: Why)

  datatype Reply =
    | Result(value: string)
    | Unread(why: Why)
    | CommandTooLong | NotWritten | NoResponse | Rejected | NoResult

  /** What one read of the pipe gives. */
  datatype Read = Closed | Later | Broken | Bytes(bytes: Bytes)

  class Protocol {
    /** The JSON reader. */
    const parse: Bytes -> Option<Message>
    /** What the browser has sent or will send and no read has taken yet. */
    var unread: Bytes
    var pending: Bytes
    var sequence: nat
    var readiness: Option<PortalReadiness>
    /** The delivered messages, and how many of them came before `readiness` was attached. */
    ghost var frames: seq<Bytes>
    ghost var messages: seq<Message>
    ghost var unwatched: nat

    ghost function Watcher(): set<object>
      reads this
    {
      if readiness.Some? then {readiness.value} else {}
    }

    /** The delivered messages are parsed NUL-free frames, the pending bytes are within the
        limit, and readiness has observed each message since it was attached once, in order. */
    ghost predicate Valid()
      reads this, Watcher()
    {
      && AllNulFree(frames)
      && |pending| <= MESSAGE_LIMIT
      && |messages| == |frames|
      && (forall k | 0 <= k < |frames| :: parse(frames[k]) == Some(messages[k]))
      && unwatched <= |messages|
      && (readiness.Some? ==>
            var r := readiness.value;
            r.Now() == After(r.portal, messages[unwatched..], |messages| - unwatched))
    }

    /** The whole byte stream, delivered or not. */
    ghost function Whole(): Bytes
      reads this
    {
      Joined(frames) + (pending + unread)
    }

    constructor (parse: Bytes -> Option<Message>, unread: Bytes)
      ensures Valid() && Whole() == unread && readiness == None && sequence == 0 && messages == []
    {
      this.parse, this.unread := parse, unread;
      pending, sequence, readiness := [], 0, None;
      frames, messages, unwatched := [], [], 0;
      new;
      assert Joined([]) + ([] + unread) == unread;
    }

    /** Readiness watches from here on. */
    method Attach(portal: Portal)
      requires Valid()
      modifies this`readiness, this`unwatched
      ensures Valid() && readiness.Some? && fresh(readiness.value) && readiness.value.portal == portal
      ensures unwatched == |messages|
    {
      var r := new PortalReadiness(portal);
      readiness, unwatched := Some(r), |messages|;
    }

    /** What the environment does at a read: nothing yet, an end, an error, or between one
        byte and a full buffer of the stream. */
    method ReadPipe() returns (r: Read)
      modifies this`unread
      ensures if r.Bytes? then 1 <= |r.bytes| <= BUFFER && old(unread) == r.bytes + unread else unread == old(unread)
    {
      var closed: bool, broken: bool, count: nat := *, *, *;
      if closed {
        return Closed;
      }
      if broken {
        return Broken;
      }
      if !(1 <= count <= BUFFER && count <= |unread|) {
        return Later;
      }
      r := Bytes(unread[..count]);
      unread := unread[count..];
    }

    /** Delivers the first pending message. */
    method Deliver(end: nat, message: Message)
      requires Valid() && end < |pending| && NulFree(pending[..end]) && pending[end] == 0
      requires parse(pending[..end]) == Some(message)
      modifies this`pending, this`frames, this`messages, Watcher()
      ensures Valid() && Whole() == old(Whole())
      ensures frames == old(frames) + [old(pending)[..end]] && messages == old(messages) + [message]
      ensures |pending| + |unread| < |old(pending)| + |unread|
    {
      assert pending == pending[..end] + [0] + pending[end + 1..];
      assert (frames + [pending[..end]])[..|frames|] == frames;
      ghost var frame := pending[..end];
      ghost var rest := pending[end + 1..];
      assert Joined(frames) + frame + [0] + (rest + unread) == Joined(frames) + ((frame + [0] + rest) + unread);
      frames, messages := frames + [pending[..end]], messages + [message];
      pending := pending[end + 1..];
      if readiness.Some? {
        readiness.value.Observe(message);
        AfterSnoc(readiness.value.portal, old(messages)[unwatched..], message);
        assert messages[unwatched..] == old(messages)[unwatched..] + [message];
      }
    }

    /** One read into the pending bytes. A read past the limit is lost, and only happens
        where the stream has no room for it. */
    method Fill() returns (failure: Option<Why>)
      requires Valid() && NulFree(pending)
      modifies this`pending, this`unread
      ensures Valid() && |pending| + |unread| <= |old(pending)| + |old(unread)|
      ensures failure != Some(TooLong) ==> Whole() == old(Whole())
      ensures failure == Some(TooLong) ==> !Roomy(old(Whole()))
      ensures failure != Some(BadResponse)
    {
      var read := ReadPipe();
      match read {
        case Closed => return Some(ClosedPipe);
        case Later => return None;
        case Broken => return Some(BrokenPipe);
        case Bytes(bytes) =>
          assert pending + old(unread) == (pending + bytes) + unread;
          if |pending| + |bytes| > MESSAGE_LIMIT {
            TooLongOnly(frames, pending, old(unread), |bytes|);
            return Some(TooLong);
          }
          pending := pending + bytes;
          return None;
      }
    }

    /** `receive`: `turns` is how many more times the loop comes round before the deadline. */
    method Receive(turns: nat) returns (r: Received, left: nat)
      requires Valid()
      modifies this`pending, this`unread, this`frames, this`messages, Watcher()
      ensures Valid() && left <= turns
      ensures r != Failed(TooLong) ==> Whole() == old(Whole())
      ensures r == Failed(TooLong) ==> !Roomy(old(Whole()))
      ensures if r.Got? then |frames| == |old(frames)| + 1 && old(frames) <= frames
                             && messages == old(messages) + [r.message]
              else frames == old(frames) && messages == old(messages)
      ensures r.Got? ==> |pending| + |unread| < |old(pending)| + |old(unread)|
      ensures r.TimedOut? ==> NulFree(pending)
      ensures r == Failed(BadResponse) ==>
                |Frames(Whole())| > |frames| && parse(Frames(Whole())[|frames|]) == None
    {
      left := turns;
      while true
        invariant Valid() && Whole() == old(Whole()) && left <= turns
        invariant frames == old(frames) && messages == old(messages)
        invariant |pending| + |unread| <= |old(pending)| + |old(unread)|
        decreases left
      {
        var stop: bool := *;
        if stop {
          return Failed(Stopped), left;
        }
        var end := FirstNul(pending);
        if end < |pending| {
          var message := parse(pending[..end]);
          if message.None? {
            NextFrame(frames, pending, unread, end);
            return Failed(BadResponse), left;
          }
          Deliver(end, message.value);
          return Got(message.value), left;
        }
        assert pending[..end] == pending;
        if left == 0 {
          return TimedOut, left;
        }
        left := left - 1;
        var failure := Fill();
        if failure.Some? {
          return Failed(failure.value), left;
        }
      }
    }

    /** The loop of `command`: receives until a message carries the sequence number. */
    method Await(turns: nat) returns (r: Received)
      requires Valid()
      modifies this`pending, this`unread, this`frames, this`messages, Watcher()
      ensures Valid() && old(frames) <= frames && old(messages) <= messages
      ensures r != Failed(TooLong) ==> Whole() == old(Whole())
      ensures r == Failed(TooLong) ==> !Roomy(old(Whole()))
      ensures r.Got? ==> |messages| > |old(messages)| && messages[|messages| - 1] == r.message
      ensures r.Got? ==> r.message.id == Some(sequence)
      ensures forall k | |old(messages)| <= k < |messages| ::
                messages[k].id == Some(sequence) ==> r.Got? && k == |messages| - 1
    {
      var left := turns;
      while true
        invariant Valid() && Whole() == old(Whole())
        invariant old(frames) <= frames && old(messages) <= messages
        invariant forall k | |old(messages)| <= k < |messages| :: messages[k].id != Some(sequence)
        decreases |pending| + |unread|
      {
        r, left := Receive(left);
        if !r.Got? || r.message.id == Some(sequence) {
          return r;
        }
      }
    }

    /** `command`: `size` is the length of the encoded request. */
    method Command(size: nat, turns: nat) returns (reply: Reply)
      requires Valid()
      modifies this`pending, this`unread, this`sequence, this`frames, this`messages, Watcher()
      ensures Valid() && sequence == old(sequence) + 1 && old(frames) <= frames && old(messages) <= messages
      ensures reply != Unread(TooLong) ==> Whole() == old(Whole())
      ensures reply == Unread(TooLong) ==> !Roomy(old(Whole()))
      ensures size >= MESSAGE_LIMIT ==> reply == CommandTooLong && messages == old(messages)
      ensures reply.Result? || reply == Rejected || reply == NoResult ==>
                && |messages| > |old(messages)|
                && messages[|messages| - 1].id == Some(sequence)
                && reply == Answer(messages[|messages| - 1])
                && forall k | |old(messages)| <= k < |messages| - 1 :: messages[k].id != Some(sequence)
    {
      sequence := sequence + 1;
      if size >= MESSAGE_LIMIT {
        return CommandTooLong;
      }
      var written: bool := *;
      if !written {
        return NotWritten;
      }
      var response := Await(turns);
      match response
      case Failed(why) => return Unread(why);
      case TimedOut => return NoResponse;
      case Got(m) => return Answer(m);
    }
  }

  /** What a response means to the caller. */
  function Answer(m: Message): Reply {
    if m.failed then Rejected else match m.result case Some(v) => Result(v) case None => NoResult
  }

  lemma {:induction false} AfterPrefix(p: Portal, t: seq<Message>, m: Message, n: nat)
    requires n <= |t|
    ensures After(p, t + [m], n) == After(p, t, n)
  {
    if n > 0 {
      AfterPrefix(p, t, m, n - 1);
    }
  }

  lemma AfterSnoc(p: Portal, t: seq<Message>, m: Message)
    ensures After(p, t + [m], |t| + 1) == Observed(p, After(p, t, |t|), m)
  {
    AfterPrefix(p, t, m, |t|);
  }

  /** The first pending message is the stream's next one. */
  lemma NextFrame(frames: seq<Bytes>, pending: Bytes, unread: Bytes, end: nat)
    requires AllNulFree(frames) && end < |pending| && NulFree(pending[..end]) && pending[end] == 0
    ensures var all := Frames(Joined(frames) + (pending + unread));
            |all| > |frames| && all[..|frames|] == frames && all[|frames|] == pending[..end]
  {
    Rest(frames, pending + unread);
    var rest := pending[end + 1..] + unread;
    assert pending + unread == pending[..end] + [0] + rest;
    HeadFirst(pending[..end], rest);
  }

  lemma HeadFirst(head: Bytes, rest: Bytes)
    requires NulFree(head)
    ensures Frames(head + [0] + rest) == [head] + Frames(rest)
  {
    FrameEnds([], head);
    assert [] + head + [0] == head + [0];
    SplitAppend(head + [0], rest);
  }

  /** A read passes the limit only where the stream has no room for it. */
  lemma TooLongOnly(frames: seq<Bytes>, pending: Bytes, unread: Bytes, count: nat)
    requires AllNulFree(frames) && NulFree(pending) && |pending| + count > MESSAGE_LIMIT
    requires count <= BUFFER && count <= |unread|
    ensures !Roomy(Joined(frames) + (pending + unread))
  {
    var s, m := Joined(frames) + (pending + unread), |Joined(frames) + pending|;
    assert s[..m] == Joined(frames) + pending;
    Rest(frames, pending);
    PlainTail([], pending);
    assert [] + pending == pending;
    if Roomy(s) {
      RoomEverywhere(s, m);
    }
  }

  /** In every reachable state, the delivered messages are the stream's first messages and
      the pending bytes begin what is left: nothing is lost, repeated or reordered. */
  lemma DeliveredIsSplit(p: Protocol)
    requires p.Valid()
    ensures Frames(p.Whole()) == p.frames + Frames(p.pending + p.unread)
    ensures Tail(p.Whole()) == Tail(p.pending + p.unread)
  {
    Rest(p.frames, p.pending + p.unread);
  }
}
