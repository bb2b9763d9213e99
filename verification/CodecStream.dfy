/** `CodecStream` (src/transport.cpp): a backlog between a socket and a codec that may
    accept any part of each offer.  The codec is either the pass-through codec or an
    opaque one whose every answer is arbitrary, so that what is proved holds for every
    codec.  An opaque codec may keep a loop of the source going for ever; each such loop
    is observed for a given number of turns, and what is promised holds at every point. */
module CodecStream {
  import opened Text

  const SCRATCH: nat := 4096

  /** How a call ended, or that it was still under way when the observation stopped. */
  datatype Outcome<+T> = Done(value: T) | Failed(message: string) | UnderWay

  /** Bytes the peer has sent are first in flight, then received; `sent` goes to the peer. */
  class TcpStream {
    var inFlight: string
    var sent: string
    var open: bool
    ghost var received: string

    constructor (inFlight: string)
      ensures this.inFlight == inFlight && sent == "" && received == "" && open
    {
      this.inFlight := inFlight;
      sent, received, open := "", "", true;
    }

    method ReadSome(cap: nat) returns (data: string)
      requires cap > 0
      modifies this`inFlight, this`received
      ensures data + inFlight == old(inFlight) && |data| <= cap
      ensures data == "" <==> old(inFlight) == ""
      ensures received == old(received) + data
    {
      if inFlight == "" {
        return "";
      }
      var n: nat :| 0 < n <= |inFlight| && n <= cap;
      data := inFlight[..n];
      inFlight := inFlight[n..];
      received := received + data;
    }

    method WriteAll(data: string)
      modifies this`sent
      ensures sent == old(sent) + data
    {
      sent := sent + data;
    }
  }

  function Min(a: nat, b: nat): nat {
    if a <= b then a else b
  }

  /** `fed` and `emitted` are the ciphertext that went in and came out, `plainIn` and
      `plainOut` the plaintext; `incoming` and `outgoing` belong to the pass-through codec. */
  class MemoryCodec {
    const passthrough: bool
    var incoming: string
    var outgoing: string
    ghost var fed: string
    ghost var emitted: string
    ghost var plainIn: string
    ghost var plainOut: string

    constructor (passthrough: bool)
      ensures this.passthrough == passthrough && incoming == outgoing == ""
      ensures fed == emitted == plainIn == plainOut == ""
    {
      this.passthrough := passthrough;
      incoming, outgoing := "", "";
      fed, emitted, plainIn, plainOut := "", "", "", "";
    }

    /** The pass-through codec is the identity in both directions. */
    ghost predicate Faithful()
      reads this
    {
      passthrough ==> fed == plainOut + incoming && plainIn == emitted + outgoing
    }

    method HandshakeComplete() returns (b: bool)
      ensures passthrough ==> b
    {
      b := *;
      if passthrough {
        b := true;
      }
    }

    method WantsInput() returns (b: bool)
      ensures passthrough ==> !b
    {
      b := *;
      if passthrough {
        b := false;
      }
    }

    method HasPendingCiphertext() returns (b: bool)
      ensures passthrough ==> (b <==> outgoing != "")
    {
      b := *;
      if passthrough {
        b := outgoing != "";
      }
    }

    method PlaintextEof() returns (b: bool)
      ensures passthrough ==> !b
    {
      b := *;
      if passthrough {
        b := false;
      }
    }

    method WritePlaintext(data: string) returns (n: nat)
      requires Faithful()
      modifies this`outgoing, this`plainIn
      ensures Faithful() && n <= |data| && plainIn == old(plainIn) + data[..n]
      ensures passthrough ==> n == |data| && outgoing == old(outgoing) + data
    {
      n :| 0 <= n <= |data|;
      if passthrough {
        n := |data|;
        Assoc(emitted, outgoing, data);
        assert data[..n] == data;
        outgoing := outgoing + data;
      }
      plainIn := plainIn + data[..n];
    }

    method FeedCiphertext(data: string) returns (n: nat)
      requires Faithful()
      modifies this`incoming, this`fed
      ensures Faithful() && n <= |data| && fed == old(fed) + data[..n]
      ensures passthrough ==> n == |data| && incoming == old(incoming) + data
    {
      n :| 0 <= n <= |data|;
      if passthrough {
        n := |data|;
        Assoc(plainOut, incoming, data);
        assert data[..n] == data;
        incoming := incoming + data;
      }
      fed := fed + data[..n];
    }

    method ReadPlaintext(cap: nat) returns (out: string)
      requires Faithful()
      modifies this`incoming, this`plainOut
      ensures Faithful() && |out| <= cap && plainOut == old(plainOut) + out
      ensures passthrough ==> |out| == Min(cap, |old(incoming)|) && out + incoming == old(incoming)
    {
      assert |""| <= cap;
      out :| |out| <= cap;
      if passthrough {
        var n := Min(cap, |incoming|);
        out := incoming[..n];
        assert incoming == out + incoming[n..];
        Assoc(plainOut, out, incoming[n..]);
        incoming := incoming[n..];
      }
      plainOut := plainOut + out;
    }

    method ReadCiphertext(cap: nat) returns (out: string)
      requires Faithful()
      modifies this`outgoing, this`emitted
      ensures Faithful() && |out| <= cap && emitted == old(emitted) + out
      ensures passthrough ==> |out| == Min(cap, |old(outgoing)|) && out + outgoing == old(outgoing)
    {
      assert |""| <= cap;
      out :| |out| <= cap;
      if passthrough {
        var n := Min(cap, |outgoing|);
        out := outgoing[..n];
        assert outgoing == out + outgoing[n..];
        Assoc(emitted, out, outgoing[n..]);
        outgoing := outgoing[n..];
      }
      emitted := emitted + out;
    }
  }

  /** Moving an accepted part of an offer from the backlog to the codec. */
  lemma Accept(fed: string, offer: string, n: nat, rest: string)
    requires n <= |offer|
    ensures fed + offer[..n] + (offer[n..] + rest) == fed + (offer + rest)
  {
    assert offer == offer[..n] + offer[n..];
  }

  class Stream {
    const socket: TcpStream
    const codec: MemoryCodec
    var backlog: string
    var offset: nat

    ghost function Backlog(): string
      requires offset <= |backlog|
      reads this
    {
      backlog[offset..]
    }

    /** Bytes received are bytes the codec accepted, then the backlog, in order, but for
        `extra`, which is just being fed.  Bytes sent are the codec's output, in order. */
    ghost predicate Conserves(extra: string)
      reads this, socket, codec
    {
      && offset <= |backlog| && codec.Faithful()
      && codec.fed + (Backlog() + extra) == socket.received
      && socket.sent == codec.emitted
    }

    ghost predicate Valid()
      reads this, socket, codec
    {
      Conserves("")
    }

    constructor (socket: TcpStream, codec: MemoryCodec)
      requires codec.Faithful() && socket.received == codec.fed && socket.sent == codec.emitted
      ensures Valid() && this.socket == socket && this.codec == codec && Backlog() == ""
    {
      this.socket, this.codec := socket, codec;
      backlog, offset := "", 0;
      new;
      assert codec.fed + ("" + "") == codec.fed;
    }

    method Compact()
      requires offset <= |backlog|
      modifies this
      ensures offset <= |backlog| && Backlog() == old(Backlog())
    {
      if offset == 0 {
        return;
      }
      if offset >= |backlog| {
        backlog, offset := "", 0;
        return;
      }
      backlog := backlog[offset..];
      offset := 0;
    }

    /** Offers the backlog until it is empty or the codec takes nothing. */
    method FeedBacklog(ghost extra: string)
      requires Conserves(extra)
      modifies this, codec`incoming, codec`fed
      ensures Conserves(extra)
      ensures codec.passthrough ==> Backlog() == "" && codec.incoming == old(codec.incoming) + old(Backlog())
    {
      assert codec.incoming + "" == codec.incoming;
      while offset < |backlog|
        invariant Conserves(extra)
        invariant codec.passthrough ==> codec.incoming + Backlog() == old(codec.incoming) + old(Backlog())
        decreases |backlog| - offset
      {
        ghost var offer := Backlog();
        ghost var fed, incoming := codec.fed, codec.incoming;
        var consumed := codec.FeedCiphertext(backlog[offset..]);
        if consumed == 0 {
          assert fed + offer[..0] == fed;
          break;
        }
        offset := offset + consumed;
        assert Backlog() == offer[consumed..];
        Accept(fed, offer, consumed, extra);
        assert codec.passthrough ==> codec.incoming + "" == incoming + offer;
      }
      Compact();
    }

    /** Feeds bytes just read: behind the backlog if there is one, else straight in. */
    method FeedBytes(data: string)
      requires Conserves(data)
      modifies this, codec`incoming, codec`fed
      ensures Valid()
      ensures codec.passthrough && data != "" ==>
                Backlog() == "" && codec.incoming == old(codec.incoming) + (old(Backlog()) + data)
    {
      if data == "" {
        return;
      }
      if offset < |backlog| {
        ghost var before := Backlog();
        backlog := backlog + data;
        assert Backlog() == before + data;
        assert Backlog() + "" == Backlog();
        FeedBacklog("");
        return;
      }
      assert Backlog() == "" && "" + data == data;
      FeedDirect(data);
    }

    /** Offers `data` until it is used up; what the codec will not take becomes the backlog. */
    method FeedDirect(data: string)
      requires offset == |backlog| && codec.Faithful()
      requires codec.fed + data == socket.received && socket.sent == codec.emitted
      modifies this, codec`incoming, codec`fed
      ensures Valid()
      ensures codec.passthrough ==> Backlog() == "" && codec.incoming == old(codec.incoming) + data
    {
      var at := 0;
      assert data[0..] == data;
      while at < |data|
        invariant 0 <= at <= |data| && offset == |backlog| && codec.Faithful()
        invariant codec.fed + data[at..] == socket.received
        invariant codec.passthrough ==> codec.incoming + data[at..] == old(codec.incoming) + data
      {
        ghost var fed, incoming := codec.fed, codec.incoming;
        var consumed := codec.FeedCiphertext(data[at..]);
        if consumed == 0 {
          assert fed + data[at..][..0] == fed;
          backlog, offset := data[at..], 0;
          assert Backlog() + "" == data[at..];
          return;
        }
        AcceptSlice(fed, data, at, consumed);
        AcceptSlice(incoming, data, at, consumed);
        at := at + consumed;
      }
      assert data[at..] == "" && Backlog() + "" == "" && codec.incoming + "" == codec.incoming;
    }

    /** Sends what the codec has ready. */
    method Flush(budget: nat) returns (left: nat, r: Outcome<()>)
      requires Valid()
      modifies codec`outgoing, codec`emitted, socket`sent
      ensures Valid() && left <= budget && !r.Failed?
      ensures codec.passthrough ==> codec.emitted + codec.outgoing == old(codec.emitted) + old(codec.outgoing)
      ensures codec.passthrough && r.Done? ==> codec.outgoing == ""
      ensures codec.passthrough && |old(codec.outgoing)| < budget ==> r.Done? && left + |old(codec.outgoing)| + 1 >= budget
    {
      left := budget;
      while left > 0
        invariant Valid() && left <= budget
        invariant codec.passthrough ==> left + |old(codec.outgoing)| >= budget + |codec.outgoing|
        invariant codec.passthrough ==> codec.emitted + codec.outgoing == old(codec.emitted) + old(codec.outgoing)
      {
        left := left - 1;
        var pending := codec.HasPendingCiphertext();
        if !pending {
          return left, Done(());
        }
        ghost var emitted := codec.emitted;
        var out := codec.ReadCiphertext(SCRATCH);
        Assoc(emitted, out, codec.outgoing);
        if out == "" {
          assert emitted + "" == emitted;
          return left, Done(());
        }
        socket.WriteAll(out);
      }
      return 0, UnderWay;
    }

    /** Takes decrypted bytes if there are any, or notices the end of the session. */
    method Poll(cap: nat) returns (ready: Option<string>)
      requires Valid() && cap > 0
      modifies codec`incoming, codec`plainOut
      ensures Valid()
      ensures ready.None? ==> codec.plainOut == old(codec.plainOut)
      ensures ready.Some? ==> |ready.value| <= cap && codec.plainOut == old(codec.plainOut) + ready.value
      ensures codec.passthrough ==> (ready == None <==> old(codec.incoming) == "") && ready != Some("")
      ensures codec.passthrough && ready == None ==> codec.incoming == ""
    {
      assert codec.plainOut + "" == codec.plainOut;
      var out := codec.ReadPlaintext(cap);
      if |out| > 0 {
        return Some(out);
      }
      var eof := codec.PlaintextEof();
      ready := if eof then Some("") else None;
    }

    /** Hands out at most `cap` plaintext bytes; none once the session or the socket ended. */
    method ReadSome(cap: nat, budget: nat) returns (r: Outcome<string>)
      requires Valid()
      modifies this, socket`inFlight, socket`received, socket`sent
      modifies codec`incoming, codec`fed, codec`plainOut, codec`outgoing, codec`emitted
      ensures Valid()
      ensures r.Done? ==> |r.value| <= cap && codec.plainOut == old(codec.plainOut) + r.value
      ensures !r.Done? ==> codec.plainOut == old(codec.plainOut)
      ensures !socket.open ==> r.Failed?
      ensures codec.passthrough && socket.open ==> !r.Failed?
      ensures codec.passthrough && cap > 0 && r == Done("") ==>
                socket.inFlight == "" && codec.plainOut == socket.received
      ensures codec.passthrough && socket.open && |old(codec.outgoing)| + 1 < budget ==> r.Done?
    {
      if !socket.open {
        return Failed("corouv::transport::CodecStream is closed");
      }
      assert codec.plainOut + "" == codec.plainOut;
      if cap == 0 {
        return Done("");
      }
      FeedBacklog("");
      var ready := Poll(cap);
      if ready.Some? {
        return Done(ready.value);
      }
      var left := budget;
      while left > 0
        invariant Valid() && codec.plainOut == old(codec.plainOut)
        invariant codec.passthrough ==> Backlog() == "" && codec.incoming == ""
        invariant codec.passthrough && |old(codec.outgoing)| + 1 < budget ==> left == budget && codec.outgoing == old(codec.outgoing)
      {
        left, r := ReadTurn(cap, left - 1);
        if !r.UnderWay? {
          return;
        }
      }
      r := UnderWay;
    }

    /** One turn of the read loop. */
    method ReadTurn(cap: nat, budget: nat) returns (left: nat, r: Outcome<string>)
      requires Valid() && cap > 0
      requires codec.passthrough ==> Backlog() == "" && codec.incoming == ""
      modifies this, socket`inFlight, socket`received, socket`sent
      modifies codec`incoming, codec`fed, codec`plainOut, codec`outgoing, codec`emitted
      ensures Valid() && left <= budget
      ensures codec.passthrough && r.UnderWay? ==> Backlog() == "" && codec.incoming == ""
      ensures r.Done? ==> |r.value| <= cap && codec.plainOut == old(codec.plainOut) + r.value
      ensures !r.Done? ==> codec.plainOut == old(codec.plainOut)
      ensures codec.passthrough ==> !r.Failed? && (|old(codec.outgoing)| < budget ==> r.Done?)
      ensures codec.passthrough && r == Done("") ==> socket.inFlight == "" && codec.plainOut == socket.received
    {
      assert codec.plainOut + "" == codec.plainOut;
      var flushed;
      left, flushed := Flush(budget);
      if !flushed.Done? {
        return left, UnderWay;
      }
      FeedBacklog("");
      var ready := Poll(cap);
      if ready.Some? {
        return left, Done(ready.value);
      }
      if offset < |backlog| {
        return left, Failed("corouv::transport::CodecStream ciphertext backlog stalled");
      }
      var data := socket.ReadSome(SCRATCH);
      if data == "" {
        assert codec.plainOut + ("" + ("" + "")) == codec.plainOut;
        return left, Done("");
      }
      FeedBytes(data);
      ready := Poll(cap);
      r := if ready.Some? then Done(ready.value) else UnderWay;
    }

    /** Encrypts and sends `data`; `taken` bytes of it went into the codec. */
    method WriteAll(data: string, budget: nat) returns (r: Outcome<()>, ghost taken: nat)
      requires Valid()
      modifies this, socket`inFlight, socket`received, socket`sent
      modifies codec`incoming, codec`fed, codec`plainIn, codec`outgoing, codec`emitted
      ensures Valid()
      ensures taken <= |data| && codec.plainIn == old(codec.plainIn) + data[..taken]
      ensures r.Done? ==> taken == |data|
      ensures !socket.open ==> r.Failed? && taken == 0
      ensures codec.passthrough && socket.open ==> !r.Failed?
      ensures codec.passthrough && r.Done? ==>
                codec.outgoing == "" && socket.sent == old(socket.sent) + old(codec.outgoing) + data
      ensures codec.passthrough && socket.open && |old(codec.outgoing)| + |data| + 2 < budget ==> r.Done?
    {
      taken := 0;
      assert codec.plainIn + data[..0] == codec.plainIn;
      if !socket.open {
        r := Failed("corouv::transport::CodecStream is closed");
        return;
      }
      var offset, left := 0, budget;
      while offset < |data|
        invariant Valid() && offset <= |data| && taken == offset
        invariant codec.plainIn == old(codec.plainIn) + data[..offset]
        invariant codec.passthrough && |old(codec.outgoing)| + |data| + 2 < budget ==>
                    if offset == 0 then left == budget && codec.outgoing == old(codec.outgoing)
                    else offset == |data| && left > 0 && codec.outgoing == ""
        decreases left
      {
        if left == 0 {
          r := UnderWay;
          return;
        }
        var n;
        left, n, r := WriteTurn(data[offset..], left - 1);
        NextPart(old(codec.plainIn), data, offset, n);
        offset, taken := offset + n, taken + n;
        if r.Failed? {
          return;
        }
      }
      assert data[..offset] == data;
      left, r := Flush(left);
    }

    /** One turn of the write loop on the `rest` of the data: `UnderWay` is another turn. */
    method WriteTurn(rest: string, budget: nat) returns (left: nat, n: nat, r: Outcome<()>)
      requires Valid() && rest != ""
      modifies this, socket`inFlight, socket`received, socket`sent
      modifies codec`incoming, codec`fed, codec`plainIn, codec`outgoing, codec`emitted
      ensures Valid() && left <= budget && n <= |rest|
      ensures codec.plainIn == old(codec.plainIn) + rest[..n]
      ensures codec.passthrough ==> !r.Failed? && n == |rest|
      ensures codec.passthrough && |old(codec.outgoing)| + |rest| < budget ==>
                codec.outgoing == "" && left + |old(codec.outgoing)| + |rest| + 1 >= budget
    {
      FeedBacklog("");
      n := codec.WritePlaintext(rest);
      left, r := Flush(budget);
      if !r.Done? {
        return;
      }
      FeedBacklog("");
      if n == |rest| {
        return;
      }
      r := AwaitInput();
    }

    /** The end of a turn in which the codec did not take all it was offered. */
    method AwaitInput() returns (r: Outcome<()>)
      requires Valid() && !codec.passthrough
      modifies this, socket`inFlight, socket`received, codec`incoming, codec`fed
      ensures Valid()
    {
      var eof := codec.PlaintextEof();
      if eof {
        r := Failed("corouv::transport::CodecStream write on closed TLS session");
        return;
      }
      var wants := codec.WantsInput();
      if !wants {
        var pending := codec.HasPendingCiphertext();
        r := if pending then UnderWay else Failed("corouv::transport::CodecStream write stalled");
        return;
      }
      if this.offset < |backlog| {
        r := Failed("corouv::transport::CodecStream write backlog stalled");
        return;
      }
      var data := socket.ReadSome(SCRATCH);
      if data == "" {
        r := Failed("corouv::transport::CodecStream write hit eof");
        return;
      }
      FeedBytes(data);
      r := UnderWay;
    }

    /** Drives the codec until its handshake is complete, or the peer or the codec gives up. */
    method RunHandshake(budget: nat) returns (r: Outcome<()>)
      requires Valid()
      modifies this, socket`inFlight, socket`received, socket`sent
      modifies codec`incoming, codec`fed, codec`outgoing, codec`emitted
      ensures Valid()
      ensures codec.passthrough ==> !r.Failed? && socket.inFlight == old(socket.inFlight)
      ensures codec.passthrough && r.Done? ==> codec.outgoing == "" && Backlog() == ""
      ensures codec.passthrough && |old(codec.outgoing)| < budget ==> r.Done?
    {
      var left := budget;
      var complete := codec.HandshakeComplete();
      while !complete
        invariant Valid() && 0 <= left <= budget
        invariant codec.passthrough ==>
                    complete && left == budget && socket.inFlight == old(socket.inFlight) && codec.outgoing == old(codec.outgoing)
        decreases left, if complete then 0 else 1
      {
        if left == 0 {
          return UnderWay;
        }
        left, r := HandshakeTurn(left - 1);
        if !r.Done? {
          return;
        }
        complete := codec.HandshakeComplete();
      }
      left, r := Flush(left);
      if r.Done? {
        FeedBacklog("");
      }
    }

    /** One turn of the handshake loop of a codec that is not complete. */
    method HandshakeTurn(budget: nat) returns (left: nat, r: Outcome<()>)
      requires Valid() && !codec.passthrough
      modifies this, socket`inFlight, socket`received, socket`sent
      modifies codec`incoming, codec`fed, codec`outgoing, codec`emitted
      ensures Valid() && left <= budget
    {
      left, r := Flush(budget);
      if !r.Done? {
        return;
      }
      FeedBacklog("");
      var complete := codec.HandshakeComplete();
      if complete {
        return;
      }
      var wants := codec.WantsInput();
      if !wants {
        var pending := codec.HasPendingCiphertext();
        if !pending {
          r := Failed("corouv::transport handshake stalled");
        }
        return;
      }
      var data := socket.ReadSome(SCRATCH);
      if data == "" {
        r := Failed("corouv::transport handshake hit eof");
        return;
      }
      FeedBytes(data);
    }

    /** With the pass-through codec, plaintext read is a prefix of what the peer sent and
        plaintext written is what the peer gets, then what is still to be flushed. */
    lemma PassesThrough()
      requires Valid() && codec.passthrough
      ensures codec.plainOut + (codec.incoming + Backlog()) == socket.received
      ensures socket.sent + codec.outgoing == codec.plainIn
    {
      assert Backlog() + "" == Backlog();
      Assoc(codec.plainOut, codec.incoming, Backlog());
    }
  }

  lemma NextPart(before: string, data: string, at: nat, n: nat)
    requires at + n <= |data|
    ensures before + data[..at] + data[at..][..n] == before + data[..at + n]
  {
    assert data[..at + n] == data[..at] + data[at..][..n];
  }

  lemma AcceptSlice(fed: string, data: string, at: nat, n: nat)
    requires at + n <= |data|
    ensures fed + data[at..][..n] + data[at + n..] == fed + data[at..]
    ensures at + n == |data| ==> data[at..][..n] == data[at..]
  {
    assert data[at..] == data[at..][..n] + data[at + n..];
  }
}
