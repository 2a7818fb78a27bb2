/**
 * The concurrent indexer of src/interactives.rs, run sequentially.
 *
 * `process_file` starts a directory walker, a pool of workers and one
 * aggregator, connected by channels. Each worker applies the admission
 * rules to the paths it receives and sends `(path, text)` for every file it
 * could read; the aggregator counts the terms of each message and inserts
 * the table into the index. Here the walk is the list of file paths, a
 * channel is the list of what was sent on it, and the pool is one worker.
 */
module Interactives {
  import opened Wrappers
  import opened Unicode
  import opened TermFrequency
  import opened Admission

  /**
   * A worker: for each path, skip it when it is too large, has no
   * known extension or fails to extract; otherwise send its text on.
   */
  method Worker(disk: Disk, maxSize: nat, paths: seq<string>) returns (sent: seq<Message>)
    ensures sent == Forwarded(disk, maxSize, false, paths)
  {
    sent := [];
    var i := 0;
    while i < |paths|
      invariant i <= |paths|
      invariant sent + Forwarded(disk, maxSize, false, paths[i..]) == Forwarded(disk, maxSize, false, paths)
    {
      var path := paths[i];
      i := i + 1;
      var size := disk.size(path);
      if size.Some? && size.value > maxSize {
        ForwardedSkip(disk, maxSize, false, paths, i - 1);
        continue;
      }
      var ext := Extension(path);
      if ext.None? {
        ForwardedSkip(disk, maxSize, false, paths, i - 1);
        continue;
      }
      var reader := ReaderFor(ext.value, false);
      if reader.None? {
        ForwardedSkip(disk, maxSize, false, paths, i - 1);
        continue;
      }
      var text := disk.extract(reader.value, path);
      if text.Err? {
        ForwardedSkip(disk, maxSize, false, paths, i - 1);
        continue;
      }
      ForwardedTake(disk, maxSize, false, paths, i - 1, text.value);
      assert paths[i - 1 + 1..] == paths[i..];
      Associate(sent, [Message(path, text.value)], Forwarded(disk, maxSize, false, paths[i..]));
      sent := sent + [Message(path, text.value)];
    }
    assert paths[i..] == [];
    assert sent + [] == sent;
  }

  lemma Associate(x: seq<Message>, y: seq<Message>, z: seq<Message>)
    ensures x + y + z == x + (y + z)
  {
  }

  /**
   * `calculate_term_frequency`: for each message received, count the terms
   * of its text and insert the table under its path.
   */
  method CalculateTermFrequency(u: Tables, received: seq<Message>) returns (index: TermFreqIndex)
    ensures index == Ingest(u, received, map[])
  {
    index := map[];
    for i := 0 to |received|
      invariant Ingest(u, received[i..], index) == Ingest(u, received, map[])
    {
      assert received[i..][0] == received[i] && received[i..][1..] == received[i + 1..];
      var tf := CountTerms(u, received[i].content);
      index := index[received[i].path := tf];
    }
    assert received[|received|..] == [];
  }

  /**
   * `process_file`: the workers' messages, aggregated. Writing the index to
   * disk and the progress messages are not modelled.
   */
  method ProcessFile(u: Tables, disk: Disk, maxSize: nat, paths: seq<string>) returns (index: TermFreqIndex)
    ensures index == Ingest(u, Forwarded(disk, maxSize, false, paths), map[])
  {
    var sent := Worker(disk, maxSize, paths);
    index := CalculateTermFrequency(u, sent);
  }

  /**
   * With several workers the messages reach the aggregator in some
   * interleaving; when the walk meets each file once, every interleaving
   * yields the index of the sequential run.
   */
  lemma AnyArrivalOrder(u: Tables, disk: Disk, maxSize: nat, paths: seq<string>, arrived: seq<Message>)
    requires forall i, j :: 0 <= i < j < |paths| ==> paths[i] != paths[j]
    requires multiset(arrived) == multiset(Forwarded(disk, maxSize, false, paths))
    ensures Ingest(u, arrived, map[]) == Ingest(u, Forwarded(disk, maxSize, false, paths), map[])
  {
    var sent := Forwarded(disk, maxSize, false, paths);
    ForwardedDistinct(disk, maxSize, false, paths);
    PermutationKeepsDistinct(arrived, sent);
    IngestOrderIndependent(u, arrived, sent);
  }
}
