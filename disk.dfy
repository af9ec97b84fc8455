/**
 * The file system the editor reads and writes, as a map from paths to whole
 * file contents. Which reads and writes fail is decided by the environment and
 * is an input of each call.
 */
module Disk {
  import opened Wrappers
  import opened Utf16

  type Path = string

  type Files = map<Path, Text>

  datatype IOError = NoSuchFile | ReadFailed

  /**
   * How a `FileWriter` write ends: it completes; opening the file fails
   * (permission denied, no such directory) and nothing is touched; or the
   * file was opened, which truncates it, and the write stops after `kept`
   * code units (disk full, a failing flush on close).
   */
  datatype WriteOutcome = Completed | OpenFailed | Interrupted(kept: nat)

  function Min(a: nat, b: nat): nat
  {
    if a <= b then a else b
  }

  /**
   * `Files.readString`: the whole content of `p`. It fails when there is no
   * file at `p`, and whenever the environment makes it fail (`fault`:
   * permission denied, malformed input).
   */
  function Read(files: Files, p: Path, fault: bool): (r: Result<Text, IOError>)
    ensures r.Success? <==> p in files && !fault
    ensures r.Success? ==> r.value == files[p]
    ensures p !in files ==> r == Failure(NoSuchFile)
  {
    if p !in files then Failure(NoSuchFile)
    else if fault then Failure(ReadFailed)
    else Success(files[p])
  }

  /**
   * The files after writing `t` to `p`. Only `p` can change. A completed write
   * leaves exactly `t` there; a write that failed on opening changes nothing;
   * an interrupted one leaves a prefix of `t`.
   */
  function AfterWrite(files: Files, p: Path, t: Text, o: WriteOutcome): (f: Files)
    ensures forall q :: q in files && q != p ==> q in f && f[q] == files[q]
    ensures f.Keys <= files.Keys + {p}
    ensures o.Completed? ==> p in f && f[p] == t
    ensures o.OpenFailed? ==> f == files
    ensures o.Interrupted? ==> p in f && f[p] <= t
  {
    match o
    case Completed => files[p := t]
    case OpenFailed => files
    case Interrupted(kept) => files[p := t[..Min(kept, |t|)]]
  }

  /**
   * `File.length()`: the size in bytes of the file at `p`, given the byte
   * length of a text in the platform's charset; 0 when there is no file.
   */
  function FileLength(files: Files, p: Path, bytes: Text -> nat): (n: nat)
    ensures p !in files ==> n == 0
    ensures p in files ==> n == bytes(files[p])
  {
    if p in files then bytes(files[p]) else 0
  }

  /** What a completed write puts at `p` is what a read of `p` returns. */
  lemma WriteThenRead(files: Files, p: Path, t: Text)
    ensures Read(AfterWrite(files, p, t, Completed), p, false) == Success(t)
  {
  }

  /** The file system as the running editor sees it: its files change in place. */
  class FileSystem {
    var files: Files
    /** The number of bytes a text takes once encoded in the platform's default charset. */
    const bytes: Text -> nat

    constructor (files: Files, bytes: Text -> nat)
      ensures this.files == files && this.bytes == bytes
    {
      this.files := files;
      this.bytes := bytes;
    }

    method ReadString(p: Path, fault: bool) returns (r: Result<Text, IOError>)
      ensures r == Read(files, p, fault)
      ensures r.Success? ==> r.value == files[p]
    {
      r := Read(files, p, fault);
    }

    method Write(p: Path, t: Text, o: WriteOutcome) returns (ok: bool)
      modifies this
      ensures files == AfterWrite(old(files), p, t, o)
      ensures ok <==> o.Completed?
    {
      match o {
        case Completed =>
          files := files[p := t];
        case OpenFailed =>
        case Interrupted(kept) =>
          files := files[p := t[..Min(kept, |t|)]];
      }
      ok := o.Completed?;
    }
  }
}
