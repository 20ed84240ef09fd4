/** The file a transfer reads, as an oracle: it hands its bytes over in order, in
    pieces of a size of its own choosing, and any read may fail. */
module Reader {
  import opened Basics

  class Reader {
    const content: Bytes
    var at: nat
    /** Whether a read has failed. */
    ghost var failed: bool

    ghost predicate Valid()
      reads this
    {
      at <= |content|
    }

    constructor (content: Bytes)
      ensures Valid() && this.content == content && at == 0 && !failed
    {
      this.content := content;
      at, failed := 0, false;
    }

    /** Reads into `buffer[start..]`. Nothing read means the end, or no room. */
    method Read(buffer: array<Byte>, start: nat) returns (r: Result<nat>)
      requires Valid() && start <= buffer.Length
      modifies this, buffer
      ensures Valid() && old(at) <= at
      ensures failed == (old(failed) || r.Failure?)
      ensures r.Failure? ==> at == old(at) && buffer[..] == old(buffer[..])
      ensures r.Success? ==>
        && at == old(at) + r.value
        && r.value <= buffer.Length - start
        && buffer[..] == old(buffer[..start]) + content[old(at)..at] + old(buffer[start + r.value..])
        && (r.value == 0 ==> start == buffer.Length || at == |content|)
    {
      var fails: bool := *;
      if fails {
        failed := true;
        return Failure;
      }
      var most := Min(buffer.Length - start, |content| - at);
      var n: nat :| n <= most && (n == 0 ==> most == 0);
      forall i | 0 <= i < n {
        buffer[start + i] := content[at + i];
      }
      at := at + n;
      return Success(n);
    }
  }
}
