/**
 * The binary's entry point (src/main.rs): start-up (byte ceiling and
 * index-path configuration) and `process`, the indexer that aborts the
 * whole walk on the first extraction error.
 */
module Seroost {
  import opened Wrappers
  import opened Unicode
  import opened TermFrequency
  import opened Admission

  /** 2^64: `u64` arithmetic is taken modulo this in a release build. */
  const U64Modulus: nat := 0x1_0000_0000_0000_0000

  /** The values of a `u64`. */
  type U64 = x: nat | x < U64Modulus

  /** Bytes in a megabyte, `1024u64 * 1024u64`. */
  const BytesPerMegabyte: nat := 1024 * 1024

  /** The default of `--max-file-size`, in megabytes. */
  const DefaultMaxFileSizeMegabytes: U64 := 25

  /**
   * The ceiling as written, `cli.max_file_size * 1024u64 * 1024u64`, in a
   * release build, where the product wraps around modulo 2^64.
   */
  function CeilingBytesAsWritten(megabytes: U64): (bytes: U64)
    ensures megabytes * BytesPerMegabyte < U64Modulus ==> bytes == megabytes * BytesPerMegabyte
  {
    (megabytes * BytesPerMegabyte) % U64Modulus
  }

  /** A ceiling of 2^44 megabytes wraps to 0 bytes, below the ceiling of 1 megabyte. */
  lemma CeilingWrapsAround()
    ensures CeilingBytesAsWritten(0x1000_0000_0000) == 0
    ensures CeilingBytesAsWritten(1) == 1048576
  {
  }

  /**
   * So asking for the larger limit makes every non-empty file "too large"
   * for the indexer.
   */
  lemma WrappedCeilingSkipsEverything(disk: Disk, acceptCode: bool, path: string)
    requires disk.size(path).Some? && disk.size(path).value > 0
    ensures Dispose(disk, CeilingBytesAsWritten(0x1000_0000_0000), acceptCode, path) == TooLarge
  {
    CeilingWrapsAround();
  }

  /** The ceiling with the multiplication saturating at the largest `u64`. */
  function CeilingBytes(megabytes: U64): (bytes: U64)
    ensures megabytes * BytesPerMegabyte < U64Modulus ==> bytes == CeilingBytesAsWritten(megabytes)
  {
    if megabytes * BytesPerMegabyte < U64Modulus then megabytes * BytesPerMegabyte else U64Modulus - 1
  }

  /** A larger limit never gives a smaller ceiling, so it never skips a file a smaller one keeps. */
  lemma CeilingBytesMonotone(smaller: U64, larger: U64)
    requires smaller <= larger
    ensures CeilingBytes(smaller) <= CeilingBytes(larger)
  {
    assert smaller * BytesPerMegabyte <= larger * BytesPerMegabyte;
  }

  /** The default limit is 25 megabytes. */
  lemma DefaultCeiling()
    ensures CeilingBytesAsWritten(DefaultMaxFileSizeMegabytes) == 26214400
    ensures CeilingBytes(DefaultMaxFileSizeMegabytes) == 26214400
  {
  }

  /** The sub-commands. */
  datatype Command = Index | Search(term: string) | Usage

  /** The parsed command line. */
  datatype Cli = Cli(indexPath: Option<string>, maxFileSize: U64, command: Option<Command>)

  /**
   * What `./indeces/config.json` holds, as far as start-up can tell: absent,
   * present but failing to open, not a JSON map of strings, or that map.
   */
  datatype ConfigFile = NoConfigFile | Unopenable(error: string) | Unparsable | Config(entries: map<string, string>)

  /** The configuration key holding the documents directory. */
  const IndexPathKey: string := "index_path"

  /** Where start-up ends. */
  datatype Startup =
    | Ready(indexPath: string, maxFileSize: U64, command: Option<Command>, written: Option<map<string, string>>)
    | Exit(code: int)   // no path given and no configuration saved
    | OpenError(error: string)  // the configuration exists but cannot be opened; `main` returns the error
    | Panic             // the configuration is not a JSON map of strings
    | MissingKey        // the configuration has no "index_path"

  /**
   * Start-up: with `--index-path` the path is used and saved as the only
   * entry of a new configuration; without it the saved path is read back.
   * The byte ceiling is computed as written, wrapping around past the
   * largest `u64`. Failures to create or write the configuration file are
   * not modelled.
   */
  function Start(cli: Cli, config: ConfigFile): (s: Startup)
    ensures s.Ready? ==> s.maxFileSize == CeilingBytesAsWritten(cli.maxFileSize) && s.command == cli.command
    ensures cli.indexPath.Some? ==> s.Ready? && s.indexPath == cli.indexPath.value
    ensures s.Ready? && s.written.Some? ==> s.written.value.Keys == {IndexPathKey}
  {
    match cli.indexPath
    case Some(path) =>
      Ready(path, CeilingBytesAsWritten(cli.maxFileSize), cli.command, Some(map[IndexPathKey := path]))
    case None =>
      match config
      case NoConfigFile => Exit(1)
      case Unopenable(error) => OpenError(error)
      case Unparsable => Panic
      case Config(entries) =>
        if IndexPathKey in entries then Ready(entries[IndexPathKey], CeilingBytesAsWritten(cli.maxFileSize), cli.command, None)
        else MissingKey
  }

  /**
   * The configuration written by a run with `--index-path` gives the same
   * path back to a later run without it.
   */
  lemma ConfigRoundTrip(path: string, first: Cli, later: Cli, config: ConfigFile)
    requires first.indexPath == Some(path) && later.indexPath == None
    ensures Start(first, config).written.Some?
    ensures var saved := Start(first, config).written.value;
      Start(later, Config(saved)) == Ready(path, CeilingBytesAsWritten(later.maxFileSize), later.command, None)
  {
  }

  /**
   * Start-up keeps the wrapped ceiling: asking for 2^44 megabytes starts
   * the indexer with a ceiling of 0 bytes, where the corrected ceiling is
   * the largest `u64`.
   */
  lemma StartWrapsCeiling(cli: Cli, config: ConfigFile)
    requires cli.maxFileSize == 0x1000_0000_0000
    requires Start(cli, config).Ready?
    ensures Start(cli, config).maxFileSize == 0
    ensures CeilingBytes(cli.maxFileSize) == U64Modulus - 1
  {
    CeilingWrapsAround();
  }

  /** Without `--index-path`, start-up succeeds exactly when a readable configuration has the key. */
  lemma StartWithoutPath(cli: Cli, config: ConfigFile)
    requires cli.indexPath == None
    ensures Start(cli, config).Ready? <==> config.Config? && IndexPathKey in config.entries
    ensures config == NoConfigFile ==> Start(cli, config) == Exit(1)
    ensures config.Unopenable? ==> Start(cli, config) == OpenError(config.error)
  {
  }

  /** Path `i` is the first whose extraction fails, and it fails with `error`. */
  predicate FirstFailure(disk: Disk, maxSize: nat, paths: seq<string>, i: int, error: string)
  {
    && 0 <= i < |paths|
    && Dispose(disk, maxSize, false, paths[i]) == Failed(error)
    && forall j :: 0 <= j < i ==> !Dispose(disk, maxSize, false, paths[j]).Failed?
  }

  /**
   * `process`: like the other indexers, except that the first extraction
   * error ends the whole walk with that error (the `?` on each extractor).
   * The index a failed walk leaves behind is discarded by its caller, which
   * returns the error before saving.
   */
  method Process(u: Tables, disk: Disk, maxSize: nat, paths: seq<string>, index: TermFreqIndex)
    returns (result: Result<TermFreqIndex, string>)
    ensures result.Ok? <==> forall p :: p in paths ==> !Dispose(disk, maxSize, false, p).Failed?
    ensures result.Ok? ==> result.value == Ingest(u, Forwarded(disk, maxSize, false, paths), index)
    ensures result.Err? ==> exists i :: FirstFailure(disk, maxSize, paths, i, result.error)
  {
    var updated := index;
    for i := 0 to |paths|
      invariant forall j :: 0 <= j < i ==> !Dispose(disk, maxSize, false, paths[j]).Failed?
      invariant Ingest(u, Forwarded(disk, maxSize, false, paths[i..]), updated)
        == Ingest(u, Forwarded(disk, maxSize, false, paths), index)
    {
      var path := paths[i];
      ghost var d := Dispose(disk, maxSize, false, path);
      var size := disk.size(path);
      if size.Some? && size.value > maxSize {
        assert d.TooLarge?;
        ForwardedSkip(disk, maxSize, false, paths, i);
        continue;
      }
      var ext := Extension(path);
      if ext.None? {
        assert d.Unsupported?;
        ForwardedSkip(disk, maxSize, false, paths, i);
        continue;
      }
      var reader := ReaderFor(ext.value, false);
      if reader.None? {
        assert d.Unsupported?;
        ForwardedSkip(disk, maxSize, false, paths, i);
        continue;
      }
      var content := disk.extract(reader.value, path);
      if content.Err? {
        assert d == Failed(content.error);
        assert FirstFailure(disk, maxSize, paths, i, content.error);
        assert paths[i] in paths;
        return Err(content.error);
      }
      assert d == Extracted(content.value);
      ForwardedTake(disk, maxSize, false, paths, i, content.value);
      IngestFirst(u, Message(path, content.value), Forwarded(disk, maxSize, false, paths[i + 1..]), updated);
      var tf := CountTerms(u, content.value);
      updated := updated[path := tf];
    }
    assert paths[|paths|..] == [];
    forall p | p in paths
      ensures !Dispose(disk, maxSize, false, p).Failed?
    {
      var j :| 0 <= j < |paths| && paths[j] == p;
    }
    return Ok(updated);
  }

}
