/**
 * Which files get indexed, and with what text.
 *
 * All three indexers (the worker of src/interactives.rs:67-197,
 * `process_files` in src/interact.rs:169-260 and `process` in
 * src/main.rs:136-184) take the same per-file decision: skip a file whose
 * size is known and above the byte ceiling, pick an extractor by the
 * lower-cased extension of the path, skip unknown or missing extensions,
 * and otherwise run the extractor. They differ in two ways: only
 * `process_files` knows the 13 source-code extensions, and only `process`
 * aborts the whole walk on an extraction error. This module holds the
 * shared decision, with the code extensions behind a flag.
 */
module Admission {
  import opened Wrappers
  import opened Unicode
  import opened TermFrequency

  /** The position of the last `c` in `s`, if any. */
  function LastIndexOf(s: string, c: char): (r: Option<nat>)
    ensures r.None? <==> c !in s
    ensures r.Some? ==> r.value < |s| && s[r.value] == c && c !in s[r.value + 1..]
  {
    if s == [] then None
    else if s[|s| - 1] == c then Some(|s| - 1)
    else
      var r := LastIndexOf(s[..|s| - 1], c);
      assert s == s[..|s| - 1] + [s[|s| - 1]];
      assert r.Some? ==> s[r.value + 1..] == s[..|s| - 1][r.value + 1..] + [s[|s| - 1]];
      r
  }

  /** The last occurrence is the only occurrence with none after it. */
  lemma LastIndexOfUnique(s: string, c: char, i: nat)
    requires i < |s| && s[i] == c && c !in s[i + 1..]
    ensures LastIndexOf(s, c) == Some(i)
  {
    var j := LastIndexOf(s, c).value;
  }

  /**
   * `Path::file_name` of a path found by walking a directory: the part
   * after the last separator.
   */
  function FileName(path: string): (name: string)
    ensures '/' !in name
  {
    match LastIndexOf(path, '/')
    case None => path
    case Some(i) => path[i + 1..]
  }

  /**
   * `Path::extension`: the part of the file name after its last dot; none
   * when the name has no dot, when its only dot leads it (a hidden file
   * such as ".bashrc"), or when the name is "..".
   */
  function Extension(path: string): (ext: Option<string>)
    ensures ext.Some? ==> '.' !in ext.value && '/' !in ext.value
  {
    var name := FileName(path);
    if name == ".." then None
    else match LastIndexOf(name, '.')
      case None => None
      case Some(k) => if k == 0 then None else Some(name[k + 1..])
  }

  /** The file name of a path under a directory is the last component. */
  lemma FileNameUnder(dir: string, name: string)
    requires '/' !in name
    ensures FileName(dir + "/" + name) == name
  {
    var path := dir + "/" + name;
    assert path[|dir|] == '/';
    assert path[|dir| + 1..] == name;
    LastIndexOfUnique(path, '/', |dir|);
  }

  /** Composing a path from a directory, a stem and an extension gives the extension back. */
  lemma ExtensionRoundTrip(dir: string, stem: string, ext: string)
    requires stem != [] && '/' !in stem && '/' !in ext && '.' !in ext
    requires !(stem == "." && ext == [])
    ensures Extension(dir + "/" + (stem + "." + ext)) == Some(ext)
  {
    var name := stem + "." + ext;
    FileNameUnder(dir, name);
    DotSplit(stem, ext);
    if |stem| == 1 && ext == [] {
      assert name == [stem[0], '.'];
    }
  }

  /** The last dot of `stem.ext` is the one before `ext`. */
  lemma DotSplit(stem: string, ext: string)
    requires '.' !in ext
    ensures LastIndexOf(stem + "." + ext, '.') == Some(|stem|)
    ensures (stem + "." + ext)[|stem| + 1..] == ext
  {
    var name := stem + "." + ext;
    assert name[|stem|] == '.' && name[|stem| + 1..] == ext;
    LastIndexOfUnique(name, '.', |stem|);
  }

  /** A file name without a dot has no extension. */
  lemma NoDotNoExtension(path: string)
    requires '.' !in FileName(path)
    ensures Extension(path) == None
  {
  }

  /** A hidden file whose only dot leads its name has no extension. */
  lemma HiddenFileNoExtension(dir: string, rest: string)
    requires '/' !in rest && '.' !in rest && rest != []
    ensures Extension(dir + "/" + ("." + rest)) == None
  {
    var name := "." + rest;
    FileNameUnder(dir, name);
    assert name[1..] == rest;
    LastIndexOfUnique(name, '.', 0);
  }

  /**
   * `to_lowercase` on one character of an extension. The ASCII capitals
   * and the KELVIN SIGN (which lowers to 'k') are the only characters whose
   * lower case is ASCII; every other character is kept as it is, which
   * cannot change whether the extension equals one of the ASCII names below.
   */
  function FoldChar(c: char): (r: char)
    ensures IsAsciiUpper(c) ==> r == ToAsciiLowercase(c)
    ensures c == '\U{212A}' ==> r == 'k'
    ensures !IsAsciiUpper(c) && c != '\U{212A}' ==> r == c
  {
    if c == '\U{212A}' then 'k' else ToAsciiLowercase(c)
  }

  /** `to_lowercase` on an extension, character by character. */
  function Lowercase(ext: string): (r: string)
    ensures |r| == |ext| && forall i :: 0 <= i < |ext| ==> r[i] == FoldChar(ext[i])
  {
    seq(|ext|, i requires 0 <= i < |ext| => FoldChar(ext[i]))
  }

  /** The extractors the indexers dispatch to. */
  datatype Reader = Pdf | Txt | Xml | Html | Code

  /** The extensions every indexer accepts. */
  const DocumentExtensions: set<string> := {"pdf", "txt", "xml", "xhtml", "html", "htm"}

  /** The source-code extensions only `process_files` accepts. */
  const CodeExtensions: set<string> :=
    {"rs", "py", "js", "ts", "java", "cpp", "c", "h", "go", "php", "rb", "swift", "kt"}

  /** The extractor for an extension, matched after lowering its case. */
  function ReaderFor(ext: string, acceptCode: bool): (r: Option<Reader>)
    ensures r.Some? <==> Lowercase(ext) in DocumentExtensions || (acceptCode && Lowercase(ext) in CodeExtensions)
    ensures r == Some(Code) <==> acceptCode && Lowercase(ext) in CodeExtensions
  {
    var e := Lowercase(ext);
    if e == "pdf" then Some(Pdf)
    else if e == "txt" then Some(Txt)
    else if e == "xml" || e == "xhtml" then Some(Xml)
    else if e == "html" || e == "htm" then Some(Html)
    else if acceptCode && e in CodeExtensions then Some(Code)
    else None
  }

  /** Lowering the case twice changes nothing more. */
  lemma LowercaseIdempotent(ext: string)
    ensures Lowercase(Lowercase(ext)) == Lowercase(ext)
  {
    forall i | 0 <= i < |ext| ensures FoldChar(FoldChar(ext[i])) == FoldChar(ext[i]) {
      var c := ext[i];
      if IsAsciiUpper(c) {
        assert !IsAsciiUpper(FoldChar(c)) && FoldChar(c) != '\U{212A}';
      }
    }
  }

  /** Dispatch ignores case: an extension and its lower case pick the same extractor. */
  lemma ReaderForIgnoresCase(ext: string, acceptCode: bool)
    ensures ReaderFor(Lowercase(ext), acceptCode) == ReaderFor(ext, acceptCode)
  {
    LowercaseIdempotent(ext);
  }

  /**
   * The file system as the indexers see it: the size `fs::metadata`
   * reports (none when it cannot be read) and what each extractor returns.
   */
  datatype Disk = Disk(size: string -> Option<nat>, extract: (Reader, string) -> Result<string, string>)

  /** What happens to one file. */
  datatype Disposition = TooLarge | Unsupported | Failed(error: string) | Extracted(text: string)

  /** The per-file decision of the indexers, code extensions accepted when `acceptCode`. */
  function Dispose(disk: Disk, maxSize: nat, acceptCode: bool, path: string): (d: Disposition)
    ensures d.TooLarge? <==> disk.size(path).Some? && disk.size(path).value > maxSize
    ensures d.Unsupported? <==>
      !d.TooLarge? && (Extension(path).None? || ReaderFor(Extension(path).value, acceptCode).None?)
    ensures (d.Failed? || d.Extracted?) ==>
      && Extension(path).Some?
      && var reader := ReaderFor(Extension(path).value, acceptCode);
      && reader.Some?
      && (d.Failed? ==> disk.extract(reader.value, path) == Err(d.error))
      && (d.Extracted? ==> disk.extract(reader.value, path) == Ok(d.text))
  {
    var size := disk.size(path);
    if size.Some? && size.value > maxSize then TooLarge
    else match Extension(path)
      case None => Unsupported
      case Some(ext) =>
        match ReaderFor(ext, acceptCode)
        case None => Unsupported
        case Some(reader) =>
          match disk.extract(reader, path)
          case Err(e) => Failed(e)
          case Ok(text) => Extracted(text)
  }

  /**
   * The two kinds of indexer decide alike except on source-code files,
   * which the code-aware one reads and the other skips.
   */
  lemma CodeOnlyDifference(disk: Disk, maxSize: nat, path: string)
    requires Dispose(disk, maxSize, true, path) != Dispose(disk, maxSize, false, path)
    ensures Dispose(disk, maxSize, false, path) == Unsupported
    ensures Extension(path).Some? && Lowercase(Extension(path).value) in CodeExtensions
  {
    assert Extension(path).Some?;
    ReaderForCodeOnly(Extension(path).value);
  }

  /** With and without code extensions, dispatch differs only on a code extension. */
  lemma ReaderForCodeOnly(ext: string)
    ensures ReaderFor(ext, true) != ReaderFor(ext, false) ==>
      ReaderFor(ext, false).None? && Lowercase(ext) in CodeExtensions
  {
  }

  /** What one file hands on: its text if it was extracted, else nothing. */
  function Handed(disk: Disk, maxSize: nat, acceptCode: bool, path: string): (msgs: seq<Message>)
    ensures forall m :: m in msgs <==> m.path == path && Dispose(disk, maxSize, acceptCode, path) == Extracted(m.content)
  {
    match Dispose(disk, maxSize, acceptCode, path)
    case Extracted(text) => [Message(path, text)]
    case _ => []
  }

  /** The messages an indexer hands on: one per extracted file, in walk order. */
  function Forwarded(disk: Disk, maxSize: nat, acceptCode: bool, paths: seq<string>): seq<Message>
    decreases |paths|
  {
    if paths == [] then []
    else Handed(disk, maxSize, acceptCode, paths[0]) + Forwarded(disk, maxSize, acceptCode, paths[1..])
  }

  /** A message is handed on exactly for a walked file whose extraction succeeded, with its text. */
  lemma {:induction false} ForwardedMessages(disk: Disk, maxSize: nat, acceptCode: bool, paths: seq<string>, m: Message)
    ensures m in Forwarded(disk, maxSize, acceptCode, paths) <==>
      m.path in paths && Dispose(disk, maxSize, acceptCode, m.path) == Extracted(m.content)
    decreases |paths|
  {
    if paths != [] {
      ForwardedMessages(disk, maxSize, acceptCode, paths[1..], m);
      InConcat(Handed(disk, maxSize, acceptCode, paths[0]), Forwarded(disk, maxSize, acceptCode, paths[1..]), m);
      InFirstOrRest(paths, m.path);
    }
  }

  lemma InConcat<T>(a: seq<T>, b: seq<T>, x: T)
    ensures x in a + b <==> x in a || x in b
  {
  }

  lemma InFirstOrRest<T>(s: seq<T>, x: T)
    requires s != []
    ensures x in s <==> x == s[0] || x in s[1..]
  {
    assert s == [s[0]] + s[1..];
  }

  /** The paths handed on are the walked paths whose extraction succeeded. */
  lemma ForwardedPaths(disk: Disk, maxSize: nat, acceptCode: bool, paths: seq<string>)
    ensures Paths(Forwarded(disk, maxSize, acceptCode, paths))
      == set p | p in paths && Dispose(disk, maxSize, acceptCode, p).Extracted?
  {
    var msgs := Forwarded(disk, maxSize, acceptCode, paths);
    forall p | p in paths && Dispose(disk, maxSize, acceptCode, p).Extracted?
      ensures p in Paths(msgs)
    {
      var m := Message(p, Dispose(disk, maxSize, acceptCode, p).text);
      ForwardedMessages(disk, maxSize, acceptCode, paths, m);
    }
    forall m | m in msgs
      ensures m.path in paths && Dispose(disk, maxSize, acceptCode, m.path).Extracted?
    {
      ForwardedMessages(disk, maxSize, acceptCode, paths, m);
    }
  }

  /** A walk that meets each file once hands on messages with distinct paths. */
  lemma {:induction false} ForwardedDistinct(disk: Disk, maxSize: nat, acceptCode: bool, paths: seq<string>)
    requires forall i, j :: 0 <= i < j < |paths| ==> paths[i] != paths[j]
    ensures DistinctPaths(Forwarded(disk, maxSize, acceptCode, paths))
    decreases |paths|
  {
    if paths != [] {
      var rest := Forwarded(disk, maxSize, acceptCode, paths[1..]);
      ForwardedDistinct(disk, maxSize, acceptCode, paths[1..]);
      forall m | m in rest ensures m.path != paths[0] {
        ForwardedMessages(disk, maxSize, acceptCode, paths[1..], m);
      }
    }
  }

  /** One step of the walk: the messages from position `i` on. */
  lemma ForwardedFrom(disk: Disk, maxSize: nat, acceptCode: bool, paths: seq<string>, i: nat)
    requires i < |paths|
    ensures Forwarded(disk, maxSize, acceptCode, paths[i..]) ==
      Handed(disk, maxSize, acceptCode, paths[i]) + Forwarded(disk, maxSize, acceptCode, paths[i + 1..])
  {
    assert paths[i..][0] == paths[i] && paths[i..][1..] == paths[i + 1..];
  }

  /** A file that hands nothing on leaves the rest of the walk to decide. */
  lemma ForwardedSkip(disk: Disk, maxSize: nat, acceptCode: bool, paths: seq<string>, i: nat)
    requires i < |paths| && !Dispose(disk, maxSize, acceptCode, paths[i]).Extracted?
    ensures Forwarded(disk, maxSize, acceptCode, paths[i..]) == Forwarded(disk, maxSize, acceptCode, paths[i + 1..])
  {
    ForwardedFrom(disk, maxSize, acceptCode, paths, i);
    assert Handed(disk, maxSize, acceptCode, paths[i]) == [];
  }

  /** An extracted file hands on its text ahead of the rest of the walk. */
  lemma ForwardedTake(disk: Disk, maxSize: nat, acceptCode: bool, paths: seq<string>, i: nat, text: string)
    requires i < |paths| && Dispose(disk, maxSize, acceptCode, paths[i]) == Extracted(text)
    ensures Forwarded(disk, maxSize, acceptCode, paths[i..])
      == [Message(paths[i], text)] + Forwarded(disk, maxSize, acceptCode, paths[i + 1..])
  {
    ForwardedFrom(disk, maxSize, acceptCode, paths, i);
  }

  /**
   * The index built from a walk has a key for exactly the walked files
   * whose extraction succeeded: too large, unsupported and failed files
   * never become keys.
   */
  lemma IndexedPaths(u: Tables, disk: Disk, maxSize: nat, acceptCode: bool, paths: seq<string>)
    ensures Ingest(u, Forwarded(disk, maxSize, acceptCode, paths), map[]).Keys
      == set p | p in paths && Dispose(disk, maxSize, acceptCode, p).Extracted?
  {
    IngestKeys(u, Forwarded(disk, maxSize, acceptCode, paths), map[]);
    ForwardedPaths(disk, maxSize, acceptCode, paths);
  }

  /** The size rule: a file larger than the ceiling is never indexed; one of exactly the ceiling may be. */
  lemma LargeFilesSkipped(u: Tables, disk: Disk, maxSize: nat, acceptCode: bool, paths: seq<string>, p: string)
    requires disk.size(p).Some?
    ensures disk.size(p).value > maxSize ==> p !in Ingest(u, Forwarded(disk, maxSize, acceptCode, paths), map[])
    ensures disk.size(p).value == maxSize ==> !Dispose(disk, maxSize, acceptCode, p).TooLarge?
  {
    IndexedPaths(u, disk, maxSize, acceptCode, paths);
  }

  /**
   * When the walk meets each file once, every indexed file's table counts
   * the terms of its extracted text, under that file's own path.
   */
  lemma IndexedTable(u: Tables, disk: Disk, maxSize: nat, acceptCode: bool, paths: seq<string>, p: string)
    requires forall i, j :: 0 <= i < j < |paths| ==> paths[i] != paths[j]
    requires p in paths && Dispose(disk, maxSize, acceptCode, p).Extracted?
    ensures var index := Ingest(u, Forwarded(disk, maxSize, acceptCode, paths), map[]);
      p in index && index[p] == Table(u, Dispose(disk, maxSize, acceptCode, p).text)
  {
    var m := Message(p, Dispose(disk, maxSize, acceptCode, p).text);
    ForwardedMessages(disk, maxSize, acceptCode, paths, m);
    ForwardedDistinct(disk, maxSize, acceptCode, paths);
    IngestDistinct(u, Forwarded(disk, maxSize, acceptCode, paths), m);
  }
}
