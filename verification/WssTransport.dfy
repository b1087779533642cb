// The TLS connection as the client sees it: reads hand over any non-empty piece
// of what is still to come, writes take any non-empty piece of what is offered,
// and either may instead fail. Buffers are copied octet by octet.
module WssTransport {
  import opened WssBytes

  datatype Transfer = Moved(n: nat) | WouldBlock | EndOfStream | Broken

  class Transport {
    var incoming: seq<byte>   // what the server has yet to deliver
    var wire: seq<byte>       // what has been written so far
    ghost var faults: nat     // how often the connection failed or time ran out

    constructor (stream: seq<byte>)
      ensures incoming == stream && wire == [] && faults == 0
    {
      incoming, wire, faults := stream, [], 0;
    }

    method Read(buf: array<byte>, at: nat, limit: nat) returns (r: Transfer)
      requires 0 < limit && at + limit <= buf.Length
      modifies this`incoming, this`faults, buf
      ensures faults == old(faults) + if r.Moved? then 0 else 1
      ensures r.Moved? ==>
        && 0 < r.n <= limit && r.n <= |old(incoming)|
        && incoming == old(incoming)[r.n..]
        && buf[..at + r.n] == old(buf[..at]) + old(incoming)[..r.n]
      ensures !r.Moved? ==> incoming == old(incoming) && buf[..] == old(buf[..])
    {
      var n: nat := *;
      if 0 < n <= limit && n <= |incoming| {
        CopyInto(incoming[..n], buf, at);
        incoming := incoming[n..];
        return Moved(n);
      }
      faults := faults + 1;
      r := NoTransfer();
    }

    method Write(data: seq<byte>) returns (r: Transfer)
      requires data != []
      modifies this`wire, this`faults
      ensures faults == old(faults) + if r.Moved? then 0 else 1
      ensures r.Moved? ==> 0 < r.n <= |data| && wire == old(wire) + data[..r.n]
      ensures !r.Moved? ==> wire == old(wire)
    {
      var n: nat := *;
      if 0 < n <= |data| {
        wire := wire + data[..n];
        return Moved(n);
      }
      faults := faults + 1;
      r := NoTransfer();
    }

    // The deadline may have passed, or the socket refuse its timeout.
    method Fails() returns (yes: bool)
      modifies this`faults
      ensures faults == old(faults) + if yes then 1 else 0
    {
      yes := *;
      if yes { faults := faults + 1; }
    }
  }

  method NoTransfer() returns (r: Transfer)
    ensures !r.Moved?
  {
    if * { r := WouldBlock; } else if * { r := EndOfStream; } else { r := Broken; }
  }

  method CopyInto(data: seq<byte>, buf: array<byte>, at: nat)
    requires at + |data| <= buf.Length
    modifies buf
    ensures buf[..] == old(buf[..at]) + data + old(buf[at + |data|..])
  {
    for i := 0 to |data|
      invariant forall k :: 0 <= k < buf.Length ==>
        buf[k] == if at <= k < at + i then data[k - at] else old(buf[k])
    {
      buf[at + i] := data[i];
    }
  }

  // memmove of buf[from..len] to the front
  method MoveToFront(buf: array<byte>, from: nat, len: nat)
    requires from <= len <= buf.Length
    modifies buf
    ensures buf[..len - from] == old(buf[from..len])
  {
    for i := 0 to len - from
      invariant forall k :: 0 <= k < i ==> buf[k] == old(buf[from + k])
      invariant forall k :: i <= k < buf.Length ==> buf[k] == old(buf[k])
    {
      buf[i] := buf[from + i];
    }
  }
}
