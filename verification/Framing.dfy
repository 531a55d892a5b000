/**
  Message framing: a big-endian 32-bit length (network byte order, Appendix B of RFC 791) followed
  by the body.  `MessageProtocol` of src/rpc.cc and the client's `send_message`/`receive_message`
  use the same format.
 */
module Framing {
  import opened Basics

  const WORD: nat := 0x1_0000_0000

  /** `htonl` of a size stored in a `uint32_t`, which keeps the low 32 bits. */
  function Header(n: nat): (h: Bytes)
    ensures |h| == 4
  {
    var w := n % WORD;
    [w / 0x100_0000, w / 0x1_0000 % 0x100, w / 0x100 % 0x100, w % 0x100]
  }

  /** `ntohl`. */
  function HeaderValue(h: Bytes): nat
    requires |h| == 4
  {
    h[0] as int * 0x100_0000 + h[1] as int * 0x1_0000 + h[2] as int * 0x100 + h[3] as int
  }

  lemma HeaderRoundTrip(n: nat)
    ensures HeaderValue(Header(n)) == n % WORD
  {
    var w := n % WORD;
    assert w / 0x100 == w / 0x1_0000 * 0x100 + w / 0x100 % 0x100 by { DivideTwice(w, 0x100); }
    assert w / 0x1_0000 == w / 0x100_0000 * 0x100 + w / 0x1_0000 % 0x100 by { DivideTwice(w, 0x1_0000); }
  }

  lemma DivideTwice(w: nat, k: nat)
    requires k == 0x100 || k == 0x1_0000
    ensures w / k == w / (k * 0x100) * 0x100 + w / k % 0x100
  {
  }

  /** The number whose digits in base 256 these are, the highest first. */
  function BigEndian(digits: Bytes): nat
  {
    if digits == [] then 0 else BigEndian(digits[..|digits| - 1]) * 256 + digits[|digits| - 1] as int
  }

  lemma BigEndianOfFour(h: Bytes)
    requires |h| == 4
    ensures BigEndian(h) == ((h[0] as int * 256 + h[1] as int) * 256 + h[2] as int) * 256 + h[3] as int
  {
    assert BigEndian(h[..0]) == 0;
    assert h[..1][..0] == h[..0] && h[..2][..1] == h[..1] && h[..3][..2] == h[..2];
    assert BigEndian(h[..1]) == h[0] as int;
    assert BigEndian(h[..2]) == h[0] as int * 256 + h[1] as int;
    assert BigEndian(h[..3]) == (h[0] as int * 256 + h[1] as int) * 256 + h[2] as int;
  }

  /** The header is the number in base 256, the highest digit first. */
  lemma HeaderIsBigEndian(n: nat)
    ensures BigEndian(Header(n)) == n % 0x1_0000_0000
  {
    HeaderRoundTrip(n);
    BigEndianOfFour(Header(n));
  }

  function Frame(m: Bytes): (f: Bytes)
    ensures |f| == 4 + |m|
  {
    Header(|m|) + m
  }

  /** A message that the receiver will take. */
  predicate Sendable(m: Bytes)
  {
    1 <= |m| <= SIZE_LIMIT
  }

  datatype Parsed = Incomplete | BadLength | Message(m: Bytes, rest: Bytes)

  /** What `receive_message` makes of the bytes that arrive before the stream ends. */
  function Parse(s: Bytes): Parsed
  {
    if |s| < 4 then Incomplete
    else
      var n := HeaderValue(s[..4]);
      if n == 0 || n > SIZE_LIMIT then BadLength
      else if |s| < 4 + n then Incomplete
      else Message(s[4..4 + n], s[4 + n..])
  }

  /** The messages received until the first failure. */
  function ParseAll(s: Bytes): seq<Bytes>
    decreases |s|
  {
    match Parse(s)
    case Message(m, rest) => [m] + ParseAll(rest)
    case _ => []
  }

  function Frames(ms: seq<Bytes>): Bytes
  {
    if ms == [] then [] else Frame(ms[0]) + Frames(ms[1..])
  }

  /** A frame decodes to its own message exactly when the message has an admissible size; a body of
      2^32 bytes or more, in particular, never does. */
  lemma FrameDecodesExactly(m: Bytes, rest: Bytes)
    ensures Parse(Frame(m) + rest) == Message(m, rest) <==> Sendable(m)
  {
    var s := Frame(m) + rest;
    HeaderRoundTrip(|m|);
    assert s[..4] == Header(|m|);
    if Sendable(m) {
      assert s[4..4 + |m|] == m && s[4 + |m|..] == rest;
    }
  }

  lemma ValueIsBigEndian(h: Bytes)
    requires |h| == 4
    ensures HeaderValue(h) == BigEndian(h)
  {
    BigEndianOfFour(h);
  }

  /** What the receiver takes, exactly: a message is read if and only if the stream begins with its length,
      four bytes with the highest first, between 1 and a hundred mebibytes, and then the message; a length
      out of range is refused, and anything else is waited for. */
  lemma ParseExactly(s: Bytes, m: Bytes, rest: Bytes)
    ensures Parse(s) == Message(m, rest) <==>
              && 4 <= |s| && BigEndian(s[..4]) == |m| && s[4..] == m + rest
              && 1 <= |m| <= 100 * 1024 * 1024
    ensures Parse(s).BadLength? <==> 4 <= |s| && !(1 <= BigEndian(s[..4]) <= 100 * 1024 * 1024)
  {
    if 4 <= |s| {
      ValueIsBigEndian(s[..4]);
      var n := BigEndian(s[..4]);
      if 4 + n <= |s| {
        assert s[4..] == s[4..4 + n] + s[4 + n..];
      }
      if n == |m| && s[4..] == m + rest {
        assert s[4..4 + n] == m && s[4 + n..] == rest;
      }
    }
  }

  /** The length that the header keeps is either the length of the message or refused. */
  predicate Unambiguous(m: Bytes)
  {
    |m| < WORD || |m| % WORD == 0 || |m| % WORD > SIZE_LIMIT
  }

  /** What is parsed from a frame, whatever follows it.  A body of 2^32 bytes or more whose truncated
      length is admissible is cut there, and the receiver goes on in the middle of it. */
  lemma FrameThenRest(m: Bytes, rest: Bytes)
    ensures var n := |m| % WORD;
            Parse(Frame(m) + rest) == if Sendable(m) then Message(m, rest)
                                      else if Unambiguous(m) then BadLength
                                      else Message(m[..n], m[n..] + rest)
  {
    var s, n := Frame(m) + rest, |m| % WORD;
    FrameDecodesExactly(m, rest);
    HeaderRoundTrip(|m|);
    assert s[..4] == Header(|m|);
    if !Unambiguous(m) {
      assert s[4..4 + n] == m[..n] && s[4 + n..] == m[n..] + rest;
    }
  }

  /** A frame cut short is not a message. */
  lemma PartOfFrame(m: Bytes, k: nat)
    requires Unambiguous(m) && k < |Frame(m)|
    ensures !Parse(Frame(m)[..k]).Message?
  {
    HeaderRoundTrip(|m|);
    if k >= 4 {
      assert Frame(m)[..k][..4] == Header(|m|);
    }
  }

  lemma TruncatedFrame(m: Bytes, rest: Bytes, k: nat)
    requires Sendable(m) && k < |Frame(m)|
    ensures Parse((Frame(m) + rest)[..k]) == Incomplete
  {
    HeaderRoundTrip(|m|);
    if k >= 4 {
      assert (Frame(m) + rest)[..k][..4] == Header(|m|);
    }
  }

  /** Framing round trip, with truncation: a stream cut after `k` bytes yields exactly the messages
      that are complete by then. */
  lemma {:induction false} StreamRoundTrip(ms: seq<Bytes>, k: nat, j: nat)
    requires forall i :: 0 <= i < |ms| ==> Sendable(ms[i])
    requires k <= |Frames(ms)| && j <= |ms| && |Frames(ms[..j])| <= k
    requires j < |ms| ==> k < |Frames(ms[..j + 1])|
    ensures ParseAll(Frames(ms)[..k]) == ms[..j]
    decreases |ms|
  {
    if ms != [] {
      var m, rest := ms[0], Frames(ms[1..]);
      if j == 0 {
        assert ms[..1] == [m] && ms[..1][1..] == [];
        assert Frames(ms[..1]) == Frame(m) + [];
        TruncatedFrame(m, rest, k);
      } else {
        assert ms[..j][0] == m && ms[..j][1..] == ms[1..][..j - 1];
        assert j < |ms| ==> ms[..j + 1][0] == m && ms[..j + 1][1..] == ms[1..][..j];
        var k' := k - |Frame(m)|;
        assert Frames(ms)[..k] == Frame(m) + rest[..k'];
        FrameDecodesExactly(m, rest[..k']);
        StreamRoundTrip(ms[1..], k', j - 1);
        assert ms[..j] == [m] + ms[1..][..j - 1];
      }
    }
  }

  lemma FramesOne(m: Bytes)
    ensures Frames([m]) == Frame(m)
  {
    FramesSnoc([], m);
    assert [] + [m] == [m];
  }

  lemma {:induction false} FramesSnoc(ms: seq<Bytes>, m: Bytes)
    ensures Frames(ms + [m]) == Frames(ms) + Frame(m)
  {
    if ms == [] {
      assert ms + [m] == [m] && [m][1..] == [];
      assert Frame(m) + [] == Frame(m);
    } else {
      assert (ms + [m])[0] == ms[0] && (ms + [m])[1..] == ms[1..] + [m];
      FramesSnoc(ms[1..], m);
    }
  }

  lemma {:induction false} FramesAppend(a: seq<Bytes>, b: seq<Bytes>)
    ensures Frames(a + b) == Frames(a) + Frames(b)
  {
    if a == [] {
      assert a + b == b;
    } else {
      assert (a + b)[0] == a[0] && (a + b)[1..] == a[1..] + b;
      FramesAppend(a[1..], b);
    }
  }
}
