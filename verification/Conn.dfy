/** A connection: bytes that arrive in arbitrary non-empty chunks and then end. */
module Conn {
  import opened Bytes
  import opened Wrappers

  function Flat(chunks: seq<Bytes>): Bytes {
    if chunks == [] then [] else chunks[0] + Flat(chunks[1..])
  }

  class Conn {
    var chunks: seq<Bytes>

    ghost predicate Valid()
      reads this
    {
      forall i | 0 <= i < |chunks| :: chunks[i] != []
    }

    /** Everything not read yet. */
    ghost function Rest(): Bytes
      reads this
    {
      Flat(chunks)
    }

    constructor (chunks: seq<Bytes>)
      requires forall i | 0 <= i < |chunks| :: chunks[i] != []
      ensures Valid() && Rest() == Flat(chunks)
    {
      this.chunks := chunks;
    }

    /** At most max bytes of the next chunk; a failed read (the end, a timeout) is `closed`. */
    method Read(max: nat) returns (data: Bytes, closed: bool)
      requires Valid()
      modifies this
      ensures Valid()
      ensures old(Rest()) == data + Rest()
      ensures |data| <= max && (closed ==> data == [])
      ensures max > 0 ==> (closed <==> old(Rest()) == []) && (data == [] <==> closed)
      ensures max == 0 ==> !closed
    {
      if max == 0 { return [], false; }
      if chunks == [] { return [], true; }
      var first := chunks[0];
      if |first| <= max {
        data := first;
        chunks := chunks[1..];
      } else {
        data := first[..max];
        assert first == first[..max] + first[max..];
        chunks := [first[max..]] + chunks[1..];
      }
      return data, false;
    }
  }
}
