/**
 * `ModelDownloader`: fetch one model over HTTP, stream it into a staging file
 * while digesting it, reject it unless the digest matches, and install it
 * under `models/`. The network answer and the outcome of the file-system
 * calls that may fail are parameters.
 */
module Downloader {
  import opened Wrappers
  import opened Text
  import opened Digest
  import opened Status
  import opened Storage

  /** A response body: the chunks `read` returns, then end of stream or the exception a further read throws. */
  datatype Body = Body(chunks: seq<seq<byte>>, readFailure: Option<Throwable>)

  /** What `client.newCall(request).execute()` yields for a URL: a response, or the exception it throws. */
  datatype Response = Http(code: int, body: Option<Body>) | CallFailed(e: Throwable)

  datatype CopyOutcome =
    | CopyCompletes
    | CopyFailsBeforeWriting(e: Throwable)       // e.g. the target cannot be opened
    | CopyFailsAfter(written: nat, e: Throwable) // the target holds the first `written` bytes

  /** How the install step fares on this device: whether `renameTo` succeeds and, if not, how `copyTo` ends. */
  datatype DiskFaults = DiskFaults(renameSucceeds: bool, copy: CopyOutcome)

  /** `Result<File>`: the installed file, or the failure. */
  datatype DownloadResult = Installed(file: Path) | DownloadFailed(e: Throwable)

  datatype Download = Download(result: DownloadResult, files: Files)

  /** OkHttp's `isSuccessful`. */
  predicate IsSuccessful(code: int) {
    200 <= code < 300
  }

  function HttpFailure(code: int, modelName: string): Throwable {
    Throwable(PlainException, "HTTP " + DecimalText(code) + " when downloading " + modelName)
  }

  function EmptyBodyFailure(modelName: string): Throwable {
    Throwable(PlainException, "Empty response body for " + modelName)
  }

  function MismatchFailure(modelName: string): Throwable {
    Throwable(SecurityException, "SHA256 mismatch for " + modelName)
  }

  /** The verified body arrived intact, and the install is about to start. */
  predicate Verified(response: Response, expected: string, sha: HashFunction) {
    response.Http? && IsSuccessful(response.code) && response.body.Some?
    && response.body.value.readFailure.None?
    && Matches(sha, Flatten(response.body.value.chunks), expected)
  }

  /** The body arrived intact and its digest is not the expected one. */
  predicate Rejected(response: Response, expected: string, sha: HashFunction) {
    response.Http? && IsSuccessful(response.code) && response.body.Some?
    && response.body.value.readFailure.None?
    && !Matches(sha, Flatten(response.body.value.chunks), expected)
  }

  /** Neither `renameTo` nor the copy fallback completed. */
  predicate InstallFails(disk: DiskFaults) {
    !disk.renameSucceeds && !disk.copy.CopyCompletes?
  }

  /** How a download ends, which does not depend on what the file system held before. */
  function Verdict(modelName: string, expected: string, response: Response, disk: DiskFaults, sha: HashFunction): (r: DownloadResult)
    ensures r.Installed? <==> Verified(response, expected, sha) && !InstallFails(disk)
    ensures r.Installed? ==> r.file == ModelFile(modelName)
    ensures response.CallFailed? ==> r == DownloadFailed(response.e)
    ensures response.Http? && !IsSuccessful(response.code) ==> r == DownloadFailed(HttpFailure(response.code, modelName))
    ensures response.Http? && IsSuccessful(response.code) && response.body.None? ==> r == DownloadFailed(EmptyBodyFailure(modelName))
    ensures response.Http? && IsSuccessful(response.code) && response.body.Some? && response.body.value.readFailure.Some? ==>
              r == DownloadFailed(response.body.value.readFailure.value)
    ensures Rejected(response, expected, sha) ==> r == DownloadFailed(MismatchFailure(modelName))
    ensures Verified(response, expected, sha) && InstallFails(disk) ==> r == DownloadFailed(disk.copy.e)
  {
    match response
    case CallFailed(e) => DownloadFailed(e)
    case Http(code, body) =>
      if !IsSuccessful(code) then DownloadFailed(HttpFailure(code, modelName))
      else if body.None? then DownloadFailed(EmptyBodyFailure(modelName))
      else if body.value.readFailure.Some? then DownloadFailed(body.value.readFailure.value)
      else if !Matches(sha, Flatten(body.value.chunks), expected) then DownloadFailed(MismatchFailure(modelName))
      else if disk.renameSucceeds then Installed(ModelFile(modelName))
      else match disk.copy
        case CopyCompletes => Installed(ModelFile(modelName))
        case CopyFailsBeforeWriting(e) => DownloadFailed(e)
        case CopyFailsAfter(_, e) => DownloadFailed(e)
  }

  /** The files after the install step, from the state in which the verified bytes sit in the staging file. */
  function InstallFiles(staged: Files, modelName: string, bytes: seq<byte>, disk: DiskFaults): Files {
    var finalFile := ModelFile(modelName);
    var temp := TempFile(modelName);
    var cleared := staged - {finalFile};
    if disk.renameSucceeds then (cleared - {temp})[finalFile := bytes]
    else match disk.copy
      case CopyCompletes => cleared[finalFile := bytes] - {temp}
      case CopyFailsBeforeWriting(_) => cleared
      case CopyFailsAfter(n, _) => cleared[finalFile := bytes[..if n < |bytes| then n else |bytes|]]
  }

  /**
   * `downloadAndVerify` as a function of the files before the call: which
   * result it returns and what the files are afterwards.
   */
  function DownloadOutcome(files: Files, modelName: string, expected: string, response: Response, disk: DiskFaults, sha: HashFunction): (d: Download)
    ensures d.result == Verdict(modelName, expected, response, disk, sha)
  {
    var verdict := Verdict(modelName, expected, response, disk, sha);
    match response
    case CallFailed(_) => Download(verdict, files)
    case Http(code, body) =>
      if !IsSuccessful(code) || body.None? then Download(verdict, files)
      else
        var bytes := Flatten(body.value.chunks);
        var staged := files[TempFile(modelName) := bytes];
        if body.value.readFailure.Some? then Download(verdict, staged)
        else if !Matches(sha, bytes, expected) then Download(verdict, staged - {TempFile(modelName)})
        else Download(verdict, InstallFiles(staged, modelName, bytes, disk))
  }

  /** What a download does to the files, whatever its outcome. */
  lemma DownloadFiles(files: Files, modelName: string, expected: string, response: Response, disk: DiskFaults, sha: HashFunction)
    ensures var d := DownloadOutcome(files, modelName, expected, response, disk, sha);
            // Only the staging file and the model's own installed file are ever touched.
            (forall p :: p != ModelFile(modelName) && p != TempFile(modelName) ==> AgreeOn(files, d.files, p))
            // No request, a non-2xx status or a missing body: nothing on disk changes.
            && (!(response.Http? && IsSuccessful(response.code) && response.body.Some?) ==> d.files == files)
            // A failing read leaves the partial staging file behind and the installed file alone.
            && (response.Http? && IsSuccessful(response.code) && response.body.Some? && response.body.value.readFailure.Some? ==>
                  d.files == files[TempFile(modelName) := Flatten(response.body.value.chunks)])
            // A digest mismatch removes the staging file and leaves the installed file alone.
            && (Rejected(response, expected, sha) ==>
                  TempFile(modelName) !in d.files && AgreeOn(files, d.files, ModelFile(modelName)))
  {
    PathsDistinct(modelName, modelName);
  }

  /** Success installs exactly the bytes whose digest matched; otherwise the installed file changes only if the install step itself fails. */
  lemma DownloadInstalls(files: Files, modelName: string, expected: string, response: Response, disk: DiskFaults, sha: HashFunction)
    ensures var d := DownloadOutcome(files, modelName, expected, response, disk, sha);
            (d.result.Installed? ==>
               ModelFile(modelName) in d.files && Matches(sha, d.files[ModelFile(modelName)], expected)
               && d.files[ModelFile(modelName)] == Flatten(response.body.value.chunks)
               && TempFile(modelName) !in d.files)
            && (!d.result.Installed? && !(Verified(response, expected, sha) && InstallFails(disk)) ==>
                  AgreeOn(files, d.files, ModelFile(modelName)))
  {
    PathsDistinct(modelName, modelName);
  }

  /** How the server splits the body into reads changes neither the result of a download nor the files it leaves. */
  lemma ChunkingIrrelevant(files: Files, modelName: string, expected: string, code: int, chunks: seq<seq<byte>>,
                           chunks': seq<seq<byte>>, readFailure: Option<Throwable>, disk: DiskFaults, sha: HashFunction)
    requires Flatten(chunks) == Flatten(chunks')
    ensures DownloadOutcome(files, modelName, expected, Http(code, Some(Body(chunks, readFailure))), disk, sha)
         == DownloadOutcome(files, modelName, expected, Http(code, Some(Body(chunks', readFailure))), disk, sha)
  {
  }

  /** Once the old file is deleted (`ModelDownloader.kt:57`), a failed copy fallback leaves no complete model where the old one was. */
  lemma FailedFallbackLosesInstalledModel(files: Files, modelName: string, expected: string, response: Response, disk: DiskFaults, sha: HashFunction)
    requires Verified(response, expected, sha) && InstallFails(disk)
    requires disk.copy.CopyFailsBeforeWriting? || disk.copy.written < |Flatten(response.body.value.chunks)|
    ensures var d := DownloadOutcome(files, modelName, expected, response, disk, sha);
            d.result.DownloadFailed?
            && (ModelFile(modelName) !in d.files || |d.files[ModelFile(modelName)]| < |Flatten(response.body.value.chunks)|)
  {
  }

  class ModelDownloader {
    const fs: FileSystem
    const sha: HashFunction

    constructor (fs: FileSystem, sha: HashFunction)
      ensures this.fs == fs && this.sha == sha
    {
      this.fs := fs;
      this.sha := sha;
    }

    /**
     * `downloadAndVerify(modelName, downloadUrl, expectedSha256)`. `fetch` is the
     * network: the response a GET of a URL produces.
     */
    method DownloadAndVerify(modelName: string, downloadUrl: string, expectedSha256: string,
                             fetch: string -> Response, disk: DiskFaults) returns (result: DownloadResult)
      modifies fs
      ensures Download(result, fs.files) == DownloadOutcome(old(fs.files), modelName, expectedSha256, fetch(downloadUrl), disk, sha)
    {
      var response := fetch(downloadUrl);
      if response.CallFailed? {
        return DownloadFailed(response.e);
      }
      if !IsSuccessful(response.code) {
        return DownloadFailed(HttpFailure(response.code, modelName));
      }
      if response.body.None? {
        return DownloadFailed(EmptyBodyFailure(modelName));
      }
      var body := response.body.value;
      var tempFile := TempFile(modelName);
      fs.Delete(tempFile);
      fs.Truncate(tempFile);
      ghost var before := old(fs.files);
      var fed: seq<byte> := [];
      var i := 0;
      while i < |body.chunks|
        invariant 0 <= i <= |body.chunks|
        invariant fed == Flatten(body.chunks[..i])
        invariant fs.files == before[tempFile := fed]
      {
        var chunk := body.chunks[i];
        fs.Append(tempFile, chunk);
        fed := fed + chunk;
        assert body.chunks[..i + 1][..i] == body.chunks[..i];
        i := i + 1;
      }
      assert body.chunks[..i] == body.chunks;
      if body.readFailure.Some? {
        return DownloadFailed(body.readFailure.value);
      }
      var computed := HexDigest(sha, fed);
      if !EqualsIgnoreCase(computed, expectedSha256) {
        fs.Delete(tempFile);
        return DownloadFailed(MismatchFailure(modelName));
      }
      var finalFile := ModelFile(modelName);
      fs.Delete(finalFile);
      if disk.renameSucceeds {
        fs.Delete(tempFile);
        fs.Write(finalFile, fed);
      } else {
        match disk.copy
        case CopyCompletes =>
          fs.Write(finalFile, fed);
          fs.Delete(tempFile);
        case CopyFailsBeforeWriting(e) =>
          return DownloadFailed(e);
        case CopyFailsAfter(n, e) =>
          fs.Write(finalFile, fed[..if n < |fed| then n else |fed|]);
          return DownloadFailed(e);
      }
      result := Installed(finalFile);
    }

    /**
     * `sha256Stream(file)`: digest a file read in buffers of at most 8 KiB.
     * `readSize(k)` is how many bytes the k-th `read` returns (at least one,
     * at most the buffer and what is left); a missing file yields "".
     */
    method Sha256Stream(file: Path, readSize: nat -> nat) returns (hex: string)
      ensures file in fs.files ==> hex == HexDigest(sha, fs.files[file])
      ensures file !in fs.files ==> hex == ""
    {
      if file !in fs.files {
        return "";
      }
      var content := fs.files[file];
      var fed: seq<byte> := [];
      var pos := 0;
      var k := 0;
      while pos < |content|
        invariant 0 <= pos <= |content|
        invariant fed == content[..pos]
        decreases |content| - pos
      {
        var n := readSize(k);
        n := if n < 1 then 1 else if n > 8192 then 8192 else n;
        n := if n > |content| - pos then |content| - pos else n;
        fed := fed + content[pos..pos + n];
        pos := pos + n;
        k := k + 1;
      }
      assert content[..pos] == content;
      hex := HexDigest(sha, fed);
    }
  }
}
