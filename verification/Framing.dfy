/** NUL-delimited framing: what a byte stream says, and that reading it in any chunks
    gives the same messages. */
module Framing {
  import opened Options

  newtype Byte = x: int | 0 <= x < 256

  type Bytes = seq<Byte>

  const MESSAGE_LIMIT: nat := 1024 * 1024
  const BUFFER: nat := 8192

  predicate NulFree(s: Bytes) {
    forall k | 0 <= k < |s| :: s[k] != 0
  }

  /** The index of the first NUL, or the length if there is none. */
  function FirstNul(s: Bytes): (k: nat)
    ensures k <= |s| && NulFree(s[..k]) && (k < |s| ==> s[k] == 0)
  {
    if s == [] || s[0] == 0 then 0
    else
      assert s[1..][..FirstNul(s[1..])] == s[1..1 + FirstNul(s[1..])];
      1 + FirstNul(s[1..])
  }

  // ----- the meaning of a stream -----

  /** The complete messages of a stream: the bytes before each NUL. */
  function Frames(s: Bytes): seq<Bytes> {
    if s == [] then []
    else if s[|s| - 1] == 0 then Frames(s[..|s| - 1]) + [Tail(s[..|s| - 1])]
    else Frames(s[..|s| - 1])
  }

  /** What follows the last NUL. */
  function Tail(s: Bytes): Bytes {
    if s == [] || s[|s| - 1] == 0 then [] else Tail(s[..|s| - 1]) + [s[|s| - 1]]
  }

  function Joined(frames: seq<Bytes>): Bytes {
    if frames == [] then [] else Joined(frames[..|frames| - 1]) + frames[|frames| - 1] + [0]
  }

  predicate AllNulFree(frames: seq<Bytes>) {
    forall k | 0 <= k < |frames| :: NulFree(frames[k])
  }

  /** Splitting loses nothing. */
  lemma {:induction false} SplitRoundTrip(s: Bytes)
    ensures AllNulFree(Frames(s)) && NulFree(Tail(s))
    ensures Joined(Frames(s)) + Tail(s) == s
  {
    if s != [] {
      var prefix := s[..|s| - 1];
      SplitRoundTrip(prefix);
      assert s == prefix + [s[|s| - 1]];
      if s[|s| - 1] == 0 {
        assert Frames(s)[..|Frames(s)| - 1] == Frames(prefix);
      }
    }
  }

  lemma {:induction false} PlainTail(s: Bytes, t: Bytes)
    requires NulFree(t)
    ensures Frames(s + t) == Frames(s) && Tail(s + t) == Tail(s) + t
  {
    if t == [] {
      assert s + t == s;
    } else {
      var last := |t| - 1;
      assert (s + t)[..|s + t| - 1] == s + t[..last];
      PlainTail(s, t[..last]);
    }
  }

  lemma NulEnds(s: Bytes)
    ensures Frames(s + [0]) == Frames(s) + [Tail(s)] && Tail(s + [0]) == []
  {
  }

  lemma FrameEnds(s: Bytes, frame: Bytes)
    requires Tail(s) == [] && NulFree(frame)
    ensures Frames(s + frame + [0]) == Frames(s) + [frame] && Tail(s + frame + [0]) == []
  {
    PlainTail(s, frame);
    NulEnds(s + frame);
    assert [] + frame == frame;
  }

  /** Joining and splitting again gives back the messages: the other round trip. */
  lemma {:induction false} JoinRoundTrip(frames: seq<Bytes>)
    requires AllNulFree(frames)
    ensures Frames(Joined(frames)) == frames && Tail(Joined(frames)) == []
  {
    if frames != [] {
      var last := |frames| - 1;
      JoinRoundTrip(frames[..last]);
      FrameEnds(Joined(frames[..last]), frames[last]);
    }
  }

  /** A stream whose beginning is already split. */
  lemma {:induction false} SplitAppend(s: Bytes, t: Bytes)
    requires Tail(s) == []
    ensures Frames(s + t) == Frames(s) + Frames(t) && Tail(s + t) == Tail(t)
  {
    if t == [] {
      assert s + t == s;
    } else {
      var last := |t| - 1;
      assert (s + t)[..|s + t| - 1] == s + t[..last];
      SplitAppend(s, t[..last]);
    }
  }

  /** What is still to come after the delivered messages is the split of the rest. */
  lemma Rest(frames: seq<Bytes>, rest: Bytes)
    requires AllNulFree(frames)
    ensures Frames(Joined(frames) + rest) == frames + Frames(rest) && Tail(Joined(frames) + rest) == Tail(rest)
  {
    JoinRoundTrip(frames);
    SplitAppend(Joined(frames), rest);
  }

  // ----- any chunks -----

  function Concat(chunks: seq<Bytes>): Bytes {
    if chunks == [] then [] else Concat(chunks[..|chunks| - 1]) + chunks[|chunks| - 1]
  }

  /** Reading chunk after chunk: a read past the limit fails, and every complete message
      is taken before the next read. */
  function Reads(chunks: seq<Bytes>): Option<(seq<Bytes>, Bytes)> {
    if chunks == [] then Some(([], []))
    else match Reads(chunks[..|chunks| - 1])
         case None => None
         case Some(was) =>
           var pending := was.1 + chunks[|chunks| - 1];
           if |pending| > MESSAGE_LIMIT then None else Some((was.0 + Frames(pending), Tail(pending)))
  }

  predicate Small(chunks: seq<Bytes>) {
    forall k | 0 <= k < |chunks| :: |chunks[k]| <= BUFFER
  }

  /** Whatever the chunks, what was taken is the stream split at NUL. */
  lemma {:induction false} ReadsAreSplit(chunks: seq<Bytes>)
    requires Reads(chunks).Some?
    ensures Reads(chunks).value == (Frames(Concat(chunks)), Tail(Concat(chunks)))
  {
    if chunks != [] {
      var prefix, last := Concat(chunks[..|chunks| - 1]), chunks[|chunks| - 1];
      ReadsAreSplit(chunks[..|chunks| - 1]);
      SplitRoundTrip(prefix);
      assert Joined(Frames(prefix)) + (Tail(prefix) + last) == prefix + last;
      Rest(Frames(prefix), Tail(prefix) + last);
    }
  }

  // ----- which streams always pass -----

  function Min(a: nat, b: nat): nat {
    if a < b then a else b
  }

  /** After the first `m` bytes, the largest read that can come next stays within the limit. */
  predicate RoomAt(s: Bytes, m: nat)
    requires m <= |s|
  {
    |Tail(s[..m])| + Min(BUFFER, |s| - m) <= MESSAGE_LIMIT
  }

  /** Where a message ends, or the stream does. */
  predicate IsEnd(s: Bytes, m: nat)
    requires m <= |s|
  {
    m == |s| || s[m] == 0
  }

  /** For every message, and the unfinished end, one more whole read fits after it, or what
      is left of the stream. */
  predicate Roomy(s: Bytes) {
    forall m | 0 <= m <= |s| && IsEnd(s, m) :: RoomAt(s, m)
  }

  /** The ends are the tightest places. */
  lemma {:induction false} RoomEverywhere(s: Bytes, m: nat)
    requires Roomy(s) && m <= |s|
    ensures RoomAt(s, m)
    decreases |s| - m
  {
    if !IsEnd(s, m) {
      RoomEverywhere(s, m + 1);
      assert s[..m + 1][..m] == s[..m];
    }
  }

  /** In a roomy stream no chunking fails. */
  lemma {:induction false} RoomyPasses(s: Bytes, chunks: seq<Bytes>)
    requires Roomy(s) && Small(chunks) && Concat(chunks) <= s
    ensures Reads(chunks).Some?
  {
    if chunks != [] {
      var last := |chunks| - 1;
      var m := |Concat(chunks[..last])|;
      RoomyPasses(s, chunks[..last]);
      ReadsAreSplit(chunks[..last]);
      RoomEverywhere(s, m);
      assert s[..m] == Concat(chunks[..last]);
    }
  }

  /** Byte by byte. */
  function Singles(s: Bytes): (chunks: seq<Bytes>)
    ensures |chunks| == |s| && Small(chunks)
  {
    seq(|s|, k requires 0 <= k < |s| => [s[k]])
  }

  lemma {:induction false} SinglesConcat(s: Bytes)
    ensures Concat(Singles(s)) == s
  {
    if s != [] {
      var last := |s| - 1;
      assert Singles(s)[..last] == Singles(s[..last]);
      SinglesConcat(s[..last]);
    }
  }

  lemma {:induction false} SinglesPass(s: Bytes, m: nat)
    requires m <= |s| && forall j | 0 <= j < m :: RoomAt(s, j)
    ensures Reads(Singles(s[..m])) == Some((Frames(s[..m]), Tail(s[..m])))
  {
    if m == 0 {
      assert s[..0] == [] && Singles([]) == [];
    } else {
      var last := m - 1;
      assert Singles(s[..m])[..last] == Singles(s[..last]);
      SinglesPass(s, last);
      assert RoomAt(s, last);
      SinglesConcat(s[..m]);
      ReadsAreSplit(Singles(s[..m]));
    }
  }

  lemma {:induction false} ConcatAppend(a: seq<Bytes>, b: seq<Bytes>)
    ensures Concat(a + b) == Concat(a) + Concat(b)
  {
    if b == [] {
      assert a + b == a;
    } else {
      var last := |b| - 1;
      assert (a + b)[..|a + b| - 1] == a + b[..last];
      ConcatAppend(a, b[..last]);
    }
  }

  lemma {:induction false} FailureStays(a: seq<Bytes>, b: seq<Bytes>)
    requires Reads(a) == None
    ensures Reads(a + b) == None
  {
    if b == [] {
      assert a + b == a;
    } else {
      var last := |b| - 1;
      assert (a + b)[..|a + b| - 1] == a + b[..last];
      FailureStays(a, b[..last]);
    }
  }

  lemma {:induction false} FirstCrowded(s: Bytes, m: nat) returns (k: nat)
    requires m <= |s| && !RoomAt(s, m)
    ensures k <= m && !RoomAt(s, k) && forall j | 0 <= j < k :: RoomAt(s, j)
  {
    if j: nat :| j < m && !RoomAt(s, j) {
      k := FirstCrowded(s, j);
    } else {
      k := m;
    }
  }

  /** Byte by byte up to a place, then as much as one read can take, then the rest. */
  function Crowding(s: Bytes, k: nat): (chunks: seq<Bytes>)
    requires k <= |s|
    ensures Small(chunks)
  {
    var n := Min(BUFFER, |s| - k);
    Singles(s[..k]) + [s[k..k + n]] + Singles(s[k + n..])
  }

  lemma CrowdingConcat(s: Bytes, k: nat)
    requires k <= |s|
    ensures Concat(Crowding(s, k)) == s
  {
    var n := Min(BUFFER, |s| - k);
    var begin, read, rest := Singles(s[..k]), s[k..k + n], Singles(s[k + n..]);
    SinglesConcat(s[..k]);
    SinglesConcat(s[k + n..]);
    ConcatAppend(begin + [read], rest);
    assert (begin + [read])[..k] == begin;
    assert s == s[..k] + read + s[k + n..];
  }

  lemma CrowdingFails(s: Bytes, k: nat)
    requires k <= |s| && !RoomAt(s, k) && forall j | 0 <= j < k :: RoomAt(s, j)
    ensures Reads(Crowding(s, k)) == None
  {
    var n := Min(BUFFER, |s| - k);
    var begin, read := Singles(s[..k]), s[k..k + n];
    SinglesPass(s, k);
    assert (begin + [read])[..k] == begin;
    FailureStays(begin + [read], Singles(s[k + n..]));
  }

  /** Reading byte by byte up to the first crowded place and then as much as fits one read. */
  lemma CrowdedFails(s: Bytes, m: nat) returns (chunks: seq<Bytes>)
    requires m <= |s| && !RoomAt(s, m)
    ensures Small(chunks) && Concat(chunks) == s && Reads(chunks) == None
  {
    var k := FirstCrowded(s, m);
    chunks := Crowding(s, k);
    CrowdingConcat(s, k);
    CrowdingFails(s, k);
  }

  /** A stream is safe for every chunking exactly when it is roomy. */
  lemma ExactlyRoomyPasses(s: Bytes)
    ensures Roomy(s) <==> forall chunks :: Small(chunks) && Concat(chunks) == s ==> Reads(chunks).Some?
  {
    if Roomy(s) {
      forall chunks | Small(chunks) && Concat(chunks) == s ensures Reads(chunks).Some? {
        RoomyPasses(s, chunks);
      }
    } else {
      var m :| 0 <= m <= |s| && IsEnd(s, m) && !RoomAt(s, m);
      var chunks := CrowdedFails(s, m);
      assert Small(chunks) && Concat(chunks) == s && Reads(chunks) == None;
    }
  }

  /** A stream within the limit as a whole never fails, however long its messages. */
  lemma ShortStreamRoomy(s: Bytes)
    requires |s| <= MESSAGE_LIMIT
    ensures Roomy(s)
  {
    forall m | 0 <= m <= |s| ensures RoomAt(s, m) {
      TailLength(s[..m]);
    }
  }

  lemma {:induction false} TailLength(s: Bytes)
    ensures |Tail(s)| <= |s|
  {
    if s != [] {
      TailLength(s[..|s| - 1]);
    }
  }

  // ----- messages short enough -----

  /** Every message, and the unfinished end, leaves room for one whole read. */
  predicate Fits(s: Bytes) {
    && (forall k | 0 <= k < |Frames(s)| :: |Frames(s)[k]| <= MESSAGE_LIMIT - BUFFER)
    && |Tail(s)| <= MESSAGE_LIMIT - BUFFER
  }

  lemma {:induction false} FitsIsRoomy(s: Bytes, m: nat)
    requires Fits(s) && m <= |s| && IsEnd(s, m)
    ensures |Tail(s[..m])| <= MESSAGE_LIMIT - BUFFER
  {
    if m == |s| {
      assert s[..m] == s;
    } else {
      var last := |s| - 1;
      var prefix := s[..last];
      assert prefix[..m] == s[..m];
      if m < last {
        assert prefix[m] == s[m];
      }
      FitsShorter(s);
      FitsIsRoomy(prefix, m);
    }
  }

  lemma FitsShorter(s: Bytes)
    requires Fits(s) && s != []
    ensures Fits(s[..|s| - 1])
  {
    var prefix := s[..|s| - 1];
    forall k | 0 <= k < |Frames(prefix)| ensures |Frames(prefix)[k]| <= MESSAGE_LIMIT - BUFFER {
      assert Frames(s)[k] == Frames(prefix)[k];
    }
    if s[|s| - 1] == 0 {
      assert Frames(s)[|Frames(prefix)|] == Tail(prefix);
    } else {
      assert |Tail(s)| == |Tail(prefix)| + 1;
    }
  }

  /** With messages no longer than the limit less one buffer, no chunking fails. */
  lemma ShortMessagesPass(chunks: seq<Bytes>)
    requires Small(chunks) && Fits(Concat(chunks))
    ensures Reads(chunks).Some?
  {
    var s := Concat(chunks);
    forall m | 0 <= m <= |s| && IsEnd(s, m) ensures RoomAt(s, m) {
      FitsIsRoomy(s, m);
    }
    RoomyPasses(s, chunks);
  }

  function Ones(n: nat): (s: Bytes)
    ensures |s| == n && NulFree(s)
  {
    seq(n, _ => 1)
  }

  /** One byte more in a message, followed by enough of the stream, and some chunking fails. */
  lemma OneMoreByteCanFail(long: nat) returns (chunks: seq<Bytes>)
    requires MESSAGE_LIMIT - BUFFER < long <= MESSAGE_LIMIT
    ensures Small(chunks) && Reads(chunks) == None
    ensures Frames(Concat(chunks)) == [Ones(long)] && |Tail(Concat(chunks))| < BUFFER
  {
    var more: nat := BUFFER - 1;
    var s := Ones(long) + [0] + Ones(more);
    assert s[..long] == Ones(long);
    PlainTail([], Ones(long));
    assert [] + Ones(long) == Ones(long);
    chunks := CrowdedFails(s, long);
    NulEnds(Ones(long));
    PlainTail(Ones(long) + [0], Ones(more));
  }
}
