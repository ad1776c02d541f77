/** What check.rb asks of the outside world, made a parameter: the file
    system probes (`File.exist?`, `File.mtime`, `File.size`, reading a file,
    `File.dirname`, `File.expand_path`), the captured standard output of the
    two external hash tools, and the exceptions Ruby raises along the way. */
module Environment {
  import opened RubyText

  /** A snapshot of the file system, as the calls of check.rb observe it. */
  datatype FileSystem = FileSystem(
    fileExists: string -> bool,          // File.exist?(path)
    mtime: string -> int,                // File.mtime(path), as a timestamp
    size: string -> int,                 // File.size(path), in bytes
    contents: string -> string,          // what File.open(path) reads
    dirname: string -> string,           // File.dirname(path)
    expandPath: (string, string) -> string, // File.expand_path(path, dir)
    cwd: string)                         // the directory of File.expand_path(path)

  /** `File.expand_path(path)`: relative to the working directory. */
  function ExpandPath(fs: FileSystem, path: string): string
  {
    fs.expandPath(path, fs.cwd)
  }

  /** The standard output of the hash tools run through backticks. */
  datatype Tools = Tools(
    md5sum: string -> string,            // `/usr/bin/md5sum #{fqn}`
    pfff: (string, string) -> string)    // `#{pfff} #{fqn}`: tool path, file

  /** The exceptions the core raises, as values. */
  datatype Error =
    | NoSuchFile(path: string)          // Errno::ENOENT from File.mtime / File.size / File.open
    | NotMd5Listing(listing: string)    // RuntimeError of check.rb:45: a listing name not ending in .md5
    | NilListingPath(listing: string)   // TypeError: a listing line with fewer than two columns
    | NilOutputPath                     // TypeError: File.exist?(nil) on a short output record
    | UnboundPfff                       // NameError: `pfff` is not defined in output_missing
    | NoLargeFileHasher(path: string)   // a PFFF record to re-check but no PFFF tool configured

  datatype Result<+T> = Ok(value: T) | Err(error: Error)

  /** A fingerprint record as the core passes it around: a Ruby array of
      strings, normally [hash type, hash value, path]. */
  type Record = seq<string>

  /** The size above which the PFFF tool replaces md5sum. */
  const LargeFileThreshold: int := 20_000_000
}
