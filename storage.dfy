/**
 * The device state the update pipeline works on: the app's files (the
 * `models/` directory under `filesDir` and the `cacheDir`) and the shared
 * preferences file "freshfood_models" that holds the metadata ledger.
 */
module Storage {
  import opened Digest
  import opened Json

  datatype Dir = ModelsDir | CacheDir

  datatype Path = Path(dir: Dir, fileName: string)

  type Files = map<Path, seq<byte>>

  /** Preference key to stored JSON text; only `putString` is ever applied to this file. */
  type Entries = map<string, JsonText>

  datatype Store = Store(files: Files, entries: Entries)

  /** `File(File(filesDir, "models"), "$name.tflite")`: where a model is installed and read. */
  function ModelFile(name: string): (p: Path)
    ensures p.dir == ModelsDir && p.fileName == name + ".tflite"
  {
    Path(ModelsDir, name + ".tflite")
  }

  /** `File(cacheDir, "${name}_temp.tflite")`: where a download is staged. */
  function TempFile(name: string): (p: Path)
    ensures p.dir == CacheDir && p.fileName == name + "_temp.tflite"
  {
    Path(CacheDir, name + "_temp.tflite")
  }

  /** Distinct names never share an installed file, and no staging file is an installed file. */
  lemma PathsDistinct(a: string, b: string)
    ensures ModelFile(a) == ModelFile(b) ==> a == b
    ensures TempFile(a) == TempFile(b) ==> a == b
    ensures TempFile(a) != ModelFile(b)
  {
    if ModelFile(a) == ModelFile(b) {
      assert a == (a + ".tflite")[..|a|] == (b + ".tflite")[..|b|] == b;
    }
    if TempFile(a) == TempFile(b) {
      assert a == (a + "_temp.tflite")[..|a|] == (b + "_temp.tflite")[..|b|] == b;
    }
  }

  /** `p` is absent from both maps or present in both with the same bytes. */
  predicate AgreeOn(files: Files, files': Files, p: Path) {
    (p in files <==> p in files') && (p in files ==> files[p] == files'[p])
  }

  /** The app's file system. */
  class FileSystem {
    var files: Files

    constructor (files: Files)
      ensures this.files == files
    {
      this.files := files;
    }

    /** `File.delete()`; deleting a missing file does nothing. */
    method Delete(p: Path)
      modifies this
      ensures files == old(files) - {p}
    {
      files := files - {p};
    }

    /** Opening a `FileOutputStream`: the file exists and is empty. */
    method Truncate(p: Path)
      modifies this
      ensures files == old(files)[p := []]
    {
      files := files[p := []];
    }

    /** `OutputStream.write` of one buffer. */
    method Append(p: Path, bytes: seq<byte>)
      requires p in files
      modifies this
      ensures files == old(files)[p := old(files)[p] + bytes]
    {
      files := files[p := files[p] + bytes];
    }

    /** A completed write of the whole file (`copyTo`, `renameTo`). */
    method Write(p: Path, bytes: seq<byte>)
      modifies this
      ensures files == old(files)[p := bytes]
    {
      files := files[p := bytes];
    }
  }

  /** The shared preferences file "freshfood_models". */
  class Preferences {
    var entries: Entries

    constructor (entries: Entries)
      ensures this.entries == entries
    {
      this.entries := entries;
    }

    /** `edit().putString(key, value).apply()`. */
    method PutString(key: string, value: JsonText)
      modifies this
      ensures entries == old(entries)[key := value]
    {
      entries := entries[key := value];
    }
  }
}
