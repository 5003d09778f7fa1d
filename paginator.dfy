/**
 * `display_raw_data`: after each "yes" the next `chunkSize` rows are shown.
 * The replies the user types are supplied as a sequence; running out of
 * replies ends the session as a "no" would.
 */
module Paginator {
  import Text

  /** `reply.lower() == 'yes'` */
  predicate IsYes(reply: string)
    ensures IsYes(reply) ==> |reply| == 3 && (reply[0] == 'y' || reply[0] == 'Y')
  {
    Text.Lower(reply) == "yes"
  }

  /** "yes" is understood in any case. */
  lemma YesInAnyCase()
    ensures IsYes("yes") && IsYes("Yes") && IsYes("YES") && IsYes("yEs")
    ensures !IsYes("y") && !IsYes("no") && !IsYes(" yes")
  {
    assert Text.Lower("Yes") == "yes";
    assert Text.Lower("YES") == "yes";
    assert Text.Lower("yEs") == "yes";
    assert Text.Lower(" yes")[0] == ' ';
  }

  /** The chunks the loop prints, in order, as the source guards it: a chunk
      is shown only while its end index is below the row count. */
  function Chunks<T>(rows: seq<T>, start: nat, size: nat, replies: seq<string>): (c: seq<seq<T>>)
    ensures |c| <= |replies|
    ensures forall k :: 0 <= k < |c| ==> |c[k]| == size
    decreases |replies|
  {
    if replies != [] && IsYes(replies[0]) && start + size < |rows| then
      [rows[start..start + size]] + Chunks(rows, start + size, size, replies[1..])
    else []
  }

  method DisplayRawData<T>(rows: seq<T>, replies: seq<string>, startIndex: nat, chunkSize: nat)
    returns (shown: seq<seq<T>>)
    ensures shown == Chunks(rows, startIndex, chunkSize, replies)
  {
    var i: nat := 0;
    var start: nat := startIndex;
    var end := start + chunkSize;
    shown := [];
    while i < |replies| && IsYes(replies[i]) && end < |rows|
      invariant i <= |replies|
      invariant end == start + chunkSize
      invariant shown + Chunks(rows, start, chunkSize, replies[i..]) == Chunks(rows, startIndex, chunkSize, replies)
      decreases |replies| - i
    {
      assert replies[i..][1..] == replies[i + 1..];
      shown := shown + [rows[start..end]];
      i := i + 1;
      start := start + chunkSize;
      end := start + chunkSize;
    }
  }

  function Flatten<T>(chunks: seq<seq<T>>): seq<T>
  {
    if chunks == [] then [] else chunks[0] + Flatten(chunks[1..])
  }

  lemma ProductStep(n: nat, size: nat)
    ensures (n + 1) * size == size + n * size
  {
  }

  lemma FlattenCons<T>(chunks: seq<seq<T>>)
    requires chunks != []
    ensures Flatten(chunks) == chunks[0] + Flatten(chunks[1..])
  {
  }

  /** Chunk `k` is rows `[start + k*size, start + (k+1)*size)`, which lies
      strictly before the last row, and the reply that asked for it was "yes". */
  lemma {:induction false} ChunkAt<T>(rows: seq<T>, start: nat, size: nat, replies: seq<string>, k: nat)
    requires k < |Chunks(rows, start, size, replies)|
    ensures k < |replies| && IsYes(replies[k])
    ensures start + (k + 1) * size < |rows|
    ensures Chunks(rows, start, size, replies)[k] == rows[start + k * size..start + (k + 1) * size]
    decreases k
  {
    if k > 0 {
      ChunkAt(rows, start + size, size, replies[1..], k - 1);
      assert start + size + (k - 1) * size == start + k * size;
      assert start + size + k * size == start + (k + 1) * size;
    }
  }

  /** The loop stops at the first reply that is not "yes", or when the next
      chunk would reach the last row, whichever comes first. */
  lemma {:induction false} ChunksStop<T>(rows: seq<T>, start: nat, size: nat, replies: seq<string>)
    ensures var n := |Chunks(rows, start, size, replies)|;
      n <= |replies| &&
      (n < |replies| && IsYes(replies[n]) ==> start + (n + 1) * size >= |rows|)
    decreases |replies|
  {
    if replies != [] && IsYes(replies[0]) && start + size < |rows| {
      ChunksStop(rows, start + size, size, replies[1..]);
      var n := |Chunks(rows, start + size, size, replies[1..])|;
      assert start + size + (n + 1) * size == start + (n + 2) * size;
    }
  }

  /** The printed chunks are contiguous and do not overlap: together they
      are exactly the rows from `start` up to the end of the last chunk. */
  lemma {:induction false} ChunksContiguous<T>(rows: seq<T>, start: nat, size: nat, replies: seq<string>)
    requires start <= |rows|
    ensures var n := |Chunks(rows, start, size, replies)|;
      start + n * size <= |rows| &&
      Flatten(Chunks(rows, start, size, replies)) == rows[start..start + n * size]
    decreases |replies|
  {
    var c := Chunks(rows, start, size, replies);
    if replies != [] && IsYes(replies[0]) && start + size < |rows| {
      var rest := Chunks(rows, start + size, size, replies[1..]);
      ChunksContiguous(rows, start + size, size, replies[1..]);
      var n := |rest|;
      var e := start + size + n * size;
      assert c == [rows[start..start + size]] + rest;
      assert |c| == n + 1 && c[1..] == rest;
      ProductStep(n, size);
      assert start + |c| * size == e;
      FlattenCons(c);
      assert rows[start..start + size] + rows[start + size..e] == rows[start..e];
    }
  }

  /** The last row is never shown: every printed chunk ends before it. */
  lemma LastRowNeverShown<T>(rows: seq<T>, start: nat, size: nat, replies: seq<string>)
    requires start < |rows|
    ensures start + |Chunks(rows, start, size, replies)| * size < |rows|
  {
    var n := |Chunks(rows, start, size, replies)|;
    if n > 0 {
      ChunkAt(rows, start, size, replies, n - 1);
    }
  }

  /** With `size` rows or fewer nothing is ever shown, however often the user says yes. */
  lemma ShortDataNeverShown<T>(rows: seq<T>, size: nat, replies: seq<string>)
    requires |rows| <= size
    ensures Chunks(rows, 0, size, replies) == []
  {
  }

  /** Ten rows, chunks of five, the user always answers "yes": only rows 0 to
      4 are ever printed. */
  lemma TenRowsShowOnlyFive<T>(rows: seq<T>)
    requires |rows| == 10
    ensures Chunks(rows, 0, 5, ["yes", "yes", "yes"]) == [rows[0..5]]
  {
    assert IsYes("yes");
    assert Chunks(rows, 5, 5, ["yes", "yes"]) == [];
  }

  /** The corrected loop: a chunk is shown while its start index is below the
      row count, and the final chunk may be short. */
  function CorrectedChunks<T>(rows: seq<T>, start: nat, size: nat, replies: seq<string>): seq<seq<T>>
    decreases |replies|
  {
    if replies != [] && IsYes(replies[0]) && start < |rows| then
      [rows[start..if start + size < |rows| then start + size else |rows|]]
        + CorrectedChunks(rows, start + size, size, replies[1..])
    else []
  }

  method DisplayRawDataCorrected<T>(rows: seq<T>, replies: seq<string>, startIndex: nat, chunkSize: nat)
    returns (shown: seq<seq<T>>)
    ensures shown == CorrectedChunks(rows, startIndex, chunkSize, replies)
  {
    var i: nat := 0;
    var start: nat := startIndex;
    shown := [];
    while i < |replies| && IsYes(replies[i]) && start < |rows|
      invariant i <= |replies|
      invariant shown + CorrectedChunks(rows, start, chunkSize, replies[i..]) == CorrectedChunks(rows, startIndex, chunkSize, replies)
      decreases |replies| - i
    {
      assert replies[i..][1..] == replies[i + 1..];
      var end := if start + chunkSize < |rows| then start + chunkSize else |rows|;
      shown := shown + [rows[start..end]];
      i := i + 1;
      start := start + chunkSize;
    }
  }

  /** Corrected, enough "yes" replies show every row from `start` on, each once, in order. */
  lemma {:induction false} CorrectedChunksShowEverything<T>(rows: seq<T>, start: nat, size: nat, replies: seq<string>)
    requires size > 0 && start <= |rows|
    requires forall i :: 0 <= i < |replies| ==> IsYes(replies[i])
    requires |rows| - start <= |replies| * size
    ensures Flatten(CorrectedChunks(rows, start, size, replies)) == rows[start..]
    decreases |replies|
  {
    if start < |rows| {
      var rest := replies[1..];
      assert |rows| - start <= size + |rest| * size;
      if start + size < |rows| {
        CorrectedChunksShowEverything(rows, start + size, size, rest);
        assert rows[start..start + size] + rows[start + size..] == rows[start..];
      } else {
        assert CorrectedChunks(rows, start + size, size, rest) == [];
      }
    }
  }
}
