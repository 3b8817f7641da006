/** A bounded prefetch of rendered chunks hands out exactly the prompts that rendering one by one would. */
module PreparedStream {
  import opened Outcomes

  /** A render in flight, for the prompts `start` up to `start + count`. */
  datatype Chunk = Chunk(start: nat, count: nat)

  /** What an actor returns for a chunk; `prompt` is the deterministic prompt of an index. */
  function Rendered<T>(prompt: nat -> T, start: nat, count: nat): seq<T> {
    seq(count, i requires 0 <= i => prompt(start + i))
  }

  /** Chunks in flight follow one another from `from` to `to`, none of them empty. */
  ghost predicate Consecutive(pending: seq<Chunk>, from: nat, to: nat)
    decreases |pending|
  {
    if pending == [] then from == to
    else pending[0].start == from && pending[0].count >= 1 && Consecutive(pending[1..], from + pending[0].count, to)
  }

  lemma {:induction false} ConsecutiveAppend(pending: seq<Chunk>, from: nat, to: nat, count: nat)
    requires Consecutive(pending, from, to) && count >= 1
    ensures Consecutive(pending + [Chunk(to, count)], from, to + count)
    decreases |pending|
  {
    var longer := pending + [Chunk(to, count)];
    if pending == [] {
      assert longer[1..] == [];
    } else {
      ConsecutiveAppend(pending[1..], from + pending[0].count, to, count);
      assert longer[1..] == pending[1..] + [Chunk(to, count)];
    }
  }

  lemma {:induction false} ConsecutiveAscends(pending: seq<Chunk>, from: nat, to: nat)
    requires Consecutive(pending, from, to)
    ensures from <= to
    decreases |pending|
  {
    if pending != [] {
      ConsecutiveAscends(pending[1..], from + pending[0].count, to);
    }
  }

  class Stream<T(!new)> {
    const prompt: nat -> T
    const total: nat
    const chunkSize: nat
    const bufferChunks: nat
    var nextChunk: nat
    var nextIndex: nat
    var pending: seq<Chunk>
    var ready: seq<T>
    var closed: bool

    /** What is handed out next comes first, then the chunks in flight; the buffer is full until the end is reached. */
    ghost predicate Valid()
      reads this
    {
      && chunkSize >= 1 && bufferChunks >= 1
      && |pending| <= bufferChunks
      && (!closed ==>
            && nextIndex + |ready| <= nextChunk <= total
            && ready == Rendered(prompt, nextIndex, |ready|)
            && Consecutive(pending, nextIndex + |ready|, nextChunk)
            && (nextChunk < total ==> |pending| == bufferChunks))
    }

    constructor (prompt: nat -> T, total: nat, chunkSize: nat, bufferChunks: nat)
      requires chunkSize >= 1 && bufferChunks >= 1
      ensures Valid() && this.prompt == prompt && this.total == total && nextIndex == 0 && !closed
      ensures this.chunkSize == chunkSize && this.bufferChunks == bufferChunks
    {
      this.prompt, this.total, this.chunkSize, this.bufferChunks := prompt, total, chunkSize, bufferChunks;
      nextChunk, nextIndex, pending, ready, closed := 0, 0, [], [], false;
      new;
      for submitted := 0 to bufferChunks
        invariant |pending| <= submitted && nextIndex == 0 && ready == [] && !closed && nextChunk <= total
        invariant Consecutive(pending, 0, nextChunk)
        invariant nextChunk < total ==> |pending| == submitted
      {
        Submit();
      }
    }

    /** Requests the next chunk, the last one cut to the total. */
    method Submit()
      requires chunkSize >= 1 && !closed && nextChunk <= total && Consecutive(pending, nextIndex + |ready|, nextChunk)
      modifies this`pending, this`nextChunk
      ensures nextChunk <= total && Consecutive(pending, nextIndex + |ready|, nextChunk)
      ensures old(nextChunk) < total ==>
                && nextChunk == (if old(nextChunk) + chunkSize <= total then old(nextChunk) + chunkSize else total)
                && pending == old(pending) + [Chunk(old(nextChunk), nextChunk - old(nextChunk))]
      ensures old(nextChunk) == total ==> pending == old(pending) && nextChunk == total
    {
      if nextChunk >= total {
        return;
      }
      var count := if chunkSize <= total - nextChunk then chunkSize else total - nextChunk;
      ConsecutiveAppend(pending, nextIndex + |ready|, nextChunk, count);
      pending := pending + [Chunk(nextChunk, count)];
      nextChunk := nextChunk + count;
    }

    /** The next prompt in order; none once the total has been handed out or the stream is closed. */
    method Take() returns (taken: Option<(nat, T)>)
      requires Valid()
      modifies this
      ensures Valid() && closed == old(closed)
      ensures taken.Some? <==> !closed && old(nextIndex) < total
      ensures taken.Some? ==> taken.value == (old(nextIndex), prompt(old(nextIndex))) && nextIndex == old(nextIndex) + 1
      ensures taken.None? ==> nextIndex == old(nextIndex)
    {
      if closed || nextIndex >= total {
        return None;
      }
      if ready == [] {
        var chunk := pending[0];
        ready, pending := Rendered(prompt, chunk.start, chunk.count), pending[1..];
        Submit();
      }
      ConsecutiveAscends(pending, nextIndex + |ready|, nextChunk);
      var index, first := nextIndex, ready[0];
      nextIndex, ready := nextIndex + 1, ready[1..];
      return Some((index, first));
    }

    method Close()
      requires Valid()
      modifies this
      ensures Valid() && closed && pending == [] && ready == []
    {
      closed, pending, ready := true, [], [];
    }
  }
}
