/** Byte streams as Go readers deliver them: in pieces of any size, ending in EOF or in an error,
    which may come with the last bytes or after them. */
module Streams {
  import opened Common

  type Bytes = seq<byte>

  datatype Status = More | Eof | Broken

  /** One piece a reader is ready to deliver, and what it reports with its last byte. */
  datatype Piece = Piece(data: Bytes, status: Status)

  /** The bytes a script of pieces delivers before it ends. */
  function Content(script: seq<Piece>): Bytes {
    if script == [] then []
    else if script[0].status != More then script[0].data
    else script[0].data + Content(script[1..])
  }

  /** How it ends; a script that runs out ends in EOF. */
  function Ending(script: seq<Piece>): (r: Status)
    ensures r != More
  {
    if script == [] then Eof
    else if script[0].status != More then script[0].status
    else Ending(script[1..])
  }

  /** What is left of a finite stream: every delivery makes this smaller. */
  function Work(script: seq<Piece>): nat {
    if script == [] then 0 else 1 + |script[0].data| + Work(script[1..])
  }

  lemma Regroup(a: Bytes, b: Bytes, c: Bytes)
    ensures a + (b + c) == a + b + c
  {
  }

  class Source {
    var script: seq<Piece>

    constructor (script: seq<Piece>)
      ensures this.script == script
    {
      this.script := script;
    }

    /** Read into a buffer of `n` bytes: a prefix of the next piece. After the end the script is
        empty; before it, a read with room either makes progress or reports the end. */
    method Read(n: nat) returns (data: Bytes, status: Status)
      modifies this
      ensures |data| <= n
      ensures status == More ==> data + Content(script) == Content(old(script)) && Ending(script) == Ending(old(script))
      ensures status != More ==> data == Content(old(script)) && status == Ending(old(script)) && script == []
      ensures n > 0 && status == More ==> Work(script) < Work(old(script))
    {
      if script == [] {
        return [], Eof;
      }
      var piece := script[0];
      if |piece.data| > n {
        data, status := piece.data[..n], More;
        script := [Piece(piece.data[n..], piece.status)] + script[1..];
        assert data + piece.data[n..] == piece.data;
        assert script[1..] == old(script)[1..];
        if piece.status == More {
          assert data + (piece.data[n..] + Content(script[1..])) == piece.data + Content(script[1..]);
        }
      } else {
        data, status := piece.data, piece.status;
        script := if status == More then script[1..] else [];
      }
    }
  }
}
