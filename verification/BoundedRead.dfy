/** Bounded capture of a process's output. */
module BoundedRead {
  import opened Prelude
  import opened Evidence

  const BUFFER_SIZE := 8192

  /** A stream that hands out its data in reads of any size up to the buffer's,
      may fail at any read, and answers an empty read at its end only. */
  class Reader {
    const data: seq<Byte>
    var position: nat
    var turns: nat
    const sizes: nat -> nat
    const fails: nat -> bool

    constructor (data: seq<Byte>, sizes: nat -> nat, fails: nat -> bool)
      ensures this.data == data && position == 0 && this.fails == fails && turns == 0
    {
      this.data, this.sizes, this.fails := data, sizes, fails;
      position, turns := 0, 0;
    }

    predicate Valid()
      reads this
    {
      position <= |data|
    }

    method Read() returns (r: Result<seq<Byte>, Unit>)
      requires Valid()
      modifies this
      ensures Valid() && turns == old(turns) + 1
      ensures r.Err? <==> fails(old(turns))
      ensures r.Err? ==> position == old(position)
      ensures r.Ok? ==>
                |r.value| <= BUFFER_SIZE && position == old(position) + |r.value|
                  && r.value == data[old(position)..position]
      ensures r.Ok? ==> (r.value == [] <==> old(position) == |data|)
    {
      var n := turns;
      turns := turns + 1;
      if fails(n) {
        return Err(Unit);
      }
      var left := |data| - position;
      var most := if left < BUFFER_SIZE then left else BUFFER_SIZE;
      var wanted := if sizes(n) == 0 then 1 else sizes(n);
      var count := if wanted < most then wanted else most;
      var bytes := data[position..position + count];
      position := position + count;
      return Ok(bytes);
    }
  }

  datatype BoundedBytes = BoundedBytes(bytes: seq<Byte>, truncated: bool)

  function Min(a: nat, b: nat): nat {
    if a < b then a else b
  }

  lemma PrefixGrows(data: seq<Byte>, from: nat, to: nat, limit: nat)
    requires from <= to <= |data|
    ensures var kept := Min(limit, from);
            data[..Min(limit, to)] == data[..kept] + data[from..to][..Min(to - from, limit - kept)]
  {
    var kept := Min(limit, from);
    var more := Min(to - from, limit - kept);
    assert Min(limit, to) == kept + more;
    if more > 0 {
      assert kept == from;
      assert data[from..to][..more] == data[from..from + more];
    }
  }

  /** `read_bounded`: the first `limit` bytes of the stream however it is
      chunked, a flag that is set exactly when there was more, and a drained
      stream; a failing read is the only other way out. */
  method ReadBounded(reader: Reader, limit: nat) returns (r: Result<BoundedBytes, Unit>)
    requires reader.position == 0
    modifies reader
    ensures r.Ok? ==> reader.position == |reader.data|
    ensures r.Ok? ==> r.value.bytes == reader.data[..Min(limit, |reader.data|)]
    ensures r.Ok? ==> (r.value.truncated <==> |reader.data| > limit)
    ensures r.Err? <==> exists n :: old(reader.turns) <= n < reader.turns && reader.fails(n)
  {
    var bytes: seq<Byte> := [];
    var truncated := false;
    while true
      invariant reader.Valid() && old(reader.turns) <= reader.turns
      invariant bytes == reader.data[..Min(limit, reader.position)]
      invariant truncated <==> reader.position > limit
      invariant forall n :: old(reader.turns) <= n < reader.turns ==> !reader.fails(n)
      decreases |reader.data| - reader.position
    {
      ghost var from := reader.position;
      var read := reader.Read();
      if read.Err? {
        assert reader.fails(reader.turns - 1);
        return Err(Unit);
      }
      var count := |read.value|;
      if count == 0 {
        break;
      }
      var remaining := if |bytes| < limit then limit - |bytes| else 0;
      PrefixGrows(reader.data, from, reader.position, limit);
      bytes := bytes + read.value[..Min(count, remaining)];
      truncated := truncated || count > remaining;
    }
    return Ok(BoundedBytes(bytes, truncated));
  }
}
