/**
  A stream connection: the partial-transfer loops of src/tcp.cc, and message framing on top of
  them.  The results of the socket calls are an input.
 */
module Tcp {
  import opened Basics
  import opened Framing

  /** The result of one send(2) or recv(2): interrupted, some bytes moved, or an error or timeout. */
  datatype NetCall = Interrupted | Moved(n: nat) | Broken

  ghost predicate NeverBroken(io: seq<NetCall>)
  {
    forall k :: 0 <= k < |io| ==> !io[k].Broken?
  }

  ghost predicate AllUnbroken(io: seq<(seq<NetCall>, seq<NetCall>)>)
  {
    forall k :: 0 <= k < |io| ==> NeverBroken(io[k].0) && NeverBroken(io[k].1)
  }

  /** `inbox` is what will still arrive before the peer closes; `outbox` is what was sent. */
  class TcpConnection {
    var connected: bool
    var inbox: Bytes
    var outbox: Bytes

    constructor (inbox: Bytes)
      ensures connected && this.inbox == inbox && outbox == []
    {
      connected, this.inbox, outbox := true, inbox, [];
    }

    /** `send`: all of the data, or a part of it and a dropped connection. */
    method Send(data: Bytes, io: seq<NetCall>) returns (ok: bool)
      modifies this`connected, this`outbox
      ensures ok ==> connected && outbox == old(outbox) + data
      ensures !ok ==> !connected
      ensures !ok ==> exists k: nat :: k <= |data| && outbox == old(outbox) + data[..k]
      ensures old(connected) && NeverBroken(io) ==> ok
    {
      if !connected {
        assert outbox == old(outbox) + data[..0];
        return false;
      }
      var sent, k := 0, 0;
      while sent < |data|
        invariant sent <= |data| && connected && outbox == old(outbox) + data[..sent]
        decreases |data| - sent, if k < |io| then |io| - k else 0
      {
        if k < |io| && io[k].Interrupted? {
          k := k + 1;
          continue;
        }
        if k < |io| && io[k].Broken? {
          connected := false;
          return false;
        }
        var n := if k < |io| then Piece(io[k].n, |data| - sent) else |data| - sent;
        assert data[..sent + n] == data[..sent] + data[sent..sent + n];
        outbox := outbox + data[sent..sent + n];
        sent, k := sent + n, k + 1;
      }
      assert data[..|data|] == data;
      return true;
    }

    /** `receive_exact`: exactly `size` bytes, or a dropped connection. */
    method ReceiveExact(size: nat, io: seq<NetCall>) returns (ok: bool, data: Bytes)
      modifies this`connected, this`inbox
      ensures ok ==> connected && data + inbox == old(inbox) && |data| == size
      ensures !ok ==> !connected
      ensures old(connected) && NeverBroken(io) ==> (ok <==> size <= |old(inbox)|)
    {
      data := [];
      if !connected {
        return false, data;
      }
      var k := 0;
      while |data| < size
        invariant |data| <= size && connected && data + inbox == old(inbox)
        decreases size - |data|, if k < |io| then |io| - k else 0
      {
        if k < |io| && io[k].Interrupted? {
          k := k + 1;
          continue;
        }
        if (k < |io| && io[k].Broken?) || inbox == [] {
          connected := false;
          return false, data;
        }
        var left := if size - |data| < |inbox| then size - |data| else |inbox|;
        var n := if k < |io| then Piece(io[k].n, left) else left;
        assert data + inbox == (data + inbox[..n]) + inbox[n..];
        data, inbox := data + inbox[..n], inbox[n..];
        k := k + 1;
      }
      return true, data;
    }

    /** `send_message`. */
    method SendMessage(m: Bytes, headerIo: seq<NetCall>, bodyIo: seq<NetCall>) returns (ok: bool)
      modifies this`connected, this`outbox
      ensures ok ==> connected && |m| <= SIZE_LIMIT && outbox == old(outbox) + Frame(m)
      ensures ok ==> var sent := outbox[|old(outbox)|..];
                     |sent| == 4 + |m| && BigEndian(sent[..4]) == |m| && sent[4..] == m
      ensures !ok ==> exists k: nat :: k <= |Frame(m)| && outbox == old(outbox) + Frame(m)[..k]
      ensures old(connected) && NeverBroken(headerIo) && NeverBroken(bodyIo) ==> (ok <==> |m| <= SIZE_LIMIT)
    {
      if |m| > SIZE_LIMIT {
        assert outbox == old(outbox) + Frame(m)[..0];
        return false;
      }
      var header := Header(|m|);
      ok := Send(header, headerIo);
      if !ok {
        ghost var k: nat :| k <= |header| && outbox == old(outbox) + header[..k];
        assert header[..k] == Frame(m)[..k];
        return;
      }
      ok := Send(m, bodyIo);
      if !ok {
        ghost var k: nat :| k <= |m| && outbox == old(outbox) + header + m[..k];
        assert Frame(m)[..4 + k] == header + m[..k];
        assert outbox == old(outbox) + Frame(m)[..4 + k];
      } else {
        assert outbox == old(outbox) + Frame(m);
        assert outbox[|old(outbox)|..] == Frame(m) && Frame(m)[..4] == header;
        HeaderIsBigEndian(|m|);
      }
    }

    /** `receive_message`: the next frame of the stream, whatever pieces it arrives in. */
    method ReceiveMessage(headerIo: seq<NetCall>, bodyIo: seq<NetCall>) returns (ok: bool, m: Bytes)
      modifies this`connected, this`inbox
      ensures ok ==> connected && Parse(old(inbox)) == Message(m, inbox)
      ensures old(connected) && NeverBroken(headerIo) && NeverBroken(bodyIo) ==> (ok <==> Parse(old(inbox)).Message?)
    {
      m := [];
      var header: Bytes;
      ok, header := ReceiveExact(4, headerIo);
      if !ok {
        return;
      }
      assert old(inbox)[..4] == header;
      var length := HeaderValue(header);
      if length == 0 || length > SIZE_LIMIT {
        return false, m;
      }
      ghost var rest := inbox;
      assert old(inbox) == header + rest;
      ok, m := ReceiveExact(length, bodyIo);
      if ok {
        assert old(inbox) == header + (m + inbox);
        assert old(inbox)[4..4 + length] == m && old(inbox)[4 + length..] == inbox;
      }
    }

    /** Receives until the first failure, as `handle_connection` does: complete leading messages of the
        stream in order, and under every chunking without an error all of them. */
    method ReceiveAll(io: seq<(seq<NetCall>, seq<NetCall>)>) returns (ms: seq<Bytes>)
      modifies this`connected, this`inbox
      ensures ms <= ParseAll(old(inbox))
      ensures old(connected) && AllUnbroken(io) ==> ms == ParseAll(old(inbox))
    {
      ms := [];
      var k := 0;
      while connected
        invariant k == |ms| && ParseAll(old(inbox)) == ms + ParseAll(inbox)
        invariant old(connected) ==> connected
        decreases |inbox|
      {
        ghost var before := inbox;
        var header, body := if k < |io| then io[k].0 else [], if k < |io| then io[k].1 else [];
        assert AllUnbroken(io) ==> NeverBroken(header) && NeverBroken(body);
        var ok, m := ReceiveMessage(header, body);
        if !ok {
          assert AllUnbroken(io) ==> ParseAll(before) == [];
          break;
        }
        assert ms + ParseAll(before) == ms + [m] + ParseAll(inbox);
        ms, k := ms + [m], k + 1;
      }
    }
  }

  /** End to end: messages of admissible size, sent whole, arrive as the same sequence. */
  method Transmit(ms: seq<Bytes>,
                  sendIo: seq<(seq<NetCall>, seq<NetCall>)>, receiveIo: seq<(seq<NetCall>, seq<NetCall>)>)
      returns (received: seq<Bytes>)
    requires forall i :: 0 <= i < |ms| ==> Sendable(ms[i])
    requires AllUnbroken(sendIo) && AllUnbroken(receiveIo)
    ensures received == ms
  {
    var sender := new TcpConnection([]);
    for i := 0 to |ms|
      invariant fresh(sender) && sender.connected && sender.outbox == Frames(ms[..i])
    {
      var header, body := if i < |sendIo| then sendIo[i].0 else [], if i < |sendIo| then sendIo[i].1 else [];
      assert NeverBroken(header) && NeverBroken(body);
      var ok := sender.SendMessage(ms[i], header, body);
      assert ms[..i + 1] == ms[..i] + [ms[i]];
      FramesSnoc(ms[..i], ms[i]);
    }
    assert ms[..|ms|] == ms;
    var receiver := new TcpConnection(sender.outbox);
    received := receiver.ReceiveAll(receiveIo);
    StreamRoundTrip(ms, |Frames(ms)|, |ms|);
    assert Frames(ms)[..|Frames(ms)|] == Frames(ms);
  }
}
