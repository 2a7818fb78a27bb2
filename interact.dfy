/**
 * The sequential indexer of src/interact.rs and its storage locations.
 *
 * `process_files` walks a directory and, for each file the admission rules
 * let through (source-code files included), counts its terms into the
 * index it was handed. A file that cannot be read is reported and skipped,
 * and the function always returns `Ok`. The walk itself is the list of
 * file paths it meets, in order.
 */
module Interact {
  import opened Wrappers
  import opened Unicode
  import opened TermFrequency
  import opened Admission

  /**
   * `process_files`: the index it is handed, extended with one table per
   * readable, supported, small-enough file. It never reports an error.
   */
  method ProcessFiles(u: Tables, disk: Disk, maxSize: nat, paths: seq<string>, index: TermFreqIndex)
    returns (result: Result<(), string>, updated: TermFreqIndex)
    ensures result == Ok(())
    ensures updated == Ingest(u, Forwarded(disk, maxSize, true, paths), index)
  {
    updated := index;
    for i := 0 to |paths|
      invariant Ingest(u, Forwarded(disk, maxSize, true, paths[i..]), updated)
        == Ingest(u, Forwarded(disk, maxSize, true, paths), index)
    {
      var path := paths[i];
      var size := disk.size(path);
      if size.Some? && size.value > maxSize {
        ForwardedSkip(disk, maxSize, true, paths, i);
        continue;
      }
      var ext := Extension(path);
      if ext.None? {
        ForwardedSkip(disk, maxSize, true, paths, i);
        continue;
      }
      var reader := ReaderFor(ext.value, true);
      if reader.None? {
        ForwardedSkip(disk, maxSize, true, paths, i);
        continue;
      }
      var content := disk.extract(reader.value, path);
      if content.Err? {
        ForwardedSkip(disk, maxSize, true, paths, i);
        continue;
      }
      ForwardedTake(disk, maxSize, true, paths, i, content.value);
      IngestFirst(u, Message(path, content.value), Forwarded(disk, maxSize, true, paths[i + 1..]), updated);
      var tf := CountTerms(u, content.value);
      updated := updated[path := tf];
    }
    assert paths[|paths|..] == [];
    result := Ok(());
  }

  /**
   * `PathBuf::join` with a relative component: a separator is added unless
   * the base is empty or already ends with one.
   */
  function Join(base: string, part: string): (path: string)
    ensures |path| >= |part| && path[|path| - |part|..] == part
  {
    var prefix := if base != [] && base[|base| - 1] != '/' then base + "/" else base;
    EndsWith(prefix, part);
    prefix + part
  }

  lemma EndsWith(prefix: string, part: string)
    ensures (prefix + part)[|prefix + part| - |part|..] == part
  {
    assert (prefix + part)[|prefix|..] == part;
  }

  /** The directory both files are kept in. */
  function StorageDir(configDir: Option<string>): (dir: string)
    ensures dir != [] && dir[|dir| - 1] != '/'
  {
    match configDir
    case Some(d) => Join(d, "seroost")
    case None => "./indeces"
  }

  /**
   * `get_config_path`: under the user's configuration directory if there is
   * one. Nothing in the program calls it: the binary keeps its configuration
   * at the fixed `./indeces/config.json` (src/main.rs:61, 76), so what is
   * proved here about the storage helpers says nothing about that file.
   */
  function ConfigPath(configDir: Option<string>): (path: string)
    ensures path == StorageDir(configDir) + "/" + "config.json"
  {
    match configDir
    case Some(dir) => Join(Join(dir, "seroost"), "config.json")
    case None => "./indeces/config.json"
  }

  /**
   * `get_indeces_path`: next to the configuration file. Only the indexers of
   * src/interact.rs and src/interactives.rs and the search of
   * src/interact.rs use it; the binary's `process` and search keep the index
   * at the fixed `./indeces/index.json` (src/main.rs:230, 252).
   */
  function IndexPath(configDir: Option<string>): (path: string)
    ensures path == StorageDir(configDir) + "/" + "index.json"
  {
    match configDir
    case Some(dir) => Join(Join(dir, "seroost"), "index.json")
    case None => "./indeces/index.json"
  }

  /**
   * Both files sit in the same directory under their own names, so the
   * index never overwrites the configuration.
   */
  lemma StorageFiles(configDir: Option<string>)
    ensures FileName(ConfigPath(configDir)) == "config.json"
    ensures FileName(IndexPath(configDir)) == "index.json"
    ensures ConfigPath(configDir) != IndexPath(configDir)
  {
    var dir := StorageDir(configDir);
    FileNameUnder(dir, "config.json");
    FileNameUnder(dir, "index.json");
  }
}
