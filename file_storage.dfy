/** `FileStorageService`: the upload directory as the set of file names it holds, the
    name check and extension rule of `storeFile`, and the error tolerance of `deleteFile`
    and `getContentType`. The random identifier and the outcome of each file-system call
    are parameters. */
module FileStorage {
  import opened Base
  import opened Text

  /** The extension `storeFile` keeps: the suffix from the last '.', unless that dot is
      the first character or there is none. */
  function Extension(fileName: string): (ext: string)
    ensures |ext| <= |fileName| && ext == fileName[|fileName| - |ext|..]
    ensures ext != [] ==> ext[0] == '.' && '.' !in ext[1..] && |ext| < |fileName|
    ensures ext == [] <==> forall i :: 0 < i < |fileName| ==> fileName[i] != '.'
  {
    var dotIndex := LastIndexOf(fileName, '.');
    if dotIndex > 0 then
      var ext := fileName[dotIndex..];
      assert forall j :: 1 <= j < |ext| ==> ext[j] == fileName[dotIndex + j];
      ext
    else ""
  }

  /** What `Files.probeContentType` did: returned a type (possibly none), or threw. */
  datatype Probe = Probed(contentType: Option<string>) | ProbeFailed

  /** `getContentType`: the probed type, or "application/octet-stream" when probing fails. */
  function GetContentType(probe: Probe): (r: Option<string>)
    ensures probe.ProbeFailed? ==> r == Some("application/octet-stream")
    ensures probe.Probed? ==> r == probe.contentType
  {
    match probe
    case Probed(contentType) => contentType
    case ProbeFailed => Some("application/octet-stream")
  }

  /** The upload directory. */
  class UploadDirectory {
    var files: set<string>

    constructor ()
      ensures files == {}
    {
      files := {};
    }

    /** `fileExists`: the name is one of the files in the directory. */
    predicate FileExists(fileName: string)
      reads this
    {
      fileName in files
    }

    /** `storeFile` of the cleaned name `fileName`: a name with ".." is refused before
        anything is written; otherwise the file is stored as `uniqueId` followed by the
        extension, unless the copy fails. */
    method StoreFile(fileName: string, uniqueId: string, copyFails: bool) returns (r: Result<string>)
      modifies this
      ensures Contains(fileName, "..") ==>
                r == Failure(Runtime("Sorry! Filename contains invalid path sequence " + fileName, NoKey))
      ensures !Contains(fileName, "..") && copyFails ==>
                r == Failure(Runtime("Could not store file " + fileName + ". Please try again!", NoKey))
      ensures r.Success? <==> !Contains(fileName, "..") && !copyFails
      ensures r.Failure? ==> files == old(files)
      ensures r.Success? ==> r.value == uniqueId + Extension(fileName) && files == old(files) + {r.value}
      ensures r.Success? ==> FileExists(r.value)
    {
      if Contains(fileName, "..") {
        return Failure(Runtime("Sorry! Filename contains invalid path sequence " + fileName, NoKey));
      }
      var fileExtension := Extension(fileName);
      var uniqueFileName := uniqueId + fileExtension;
      if copyFails {
        return Failure(Runtime("Could not store file " + fileName + ". Please try again!", NoKey));
      }
      files := files + {uniqueFileName};
      r := Success(uniqueFileName);
    }

    /** `deleteFile`: an absent file is no error, and an I/O error is logged, not thrown. */
    method DeleteFile(fileName: string, ioError: bool)
      modifies this
      ensures ioError ==> files == old(files)
      ensures !ioError ==> files == old(files) - {fileName}
      ensures !ioError ==> !FileExists(fileName)
    {
      if !ioError {
        files := files - {fileName};
      }
    }
  }

  /** The stored name keeps the uploaded file's extension: the generated identifier is
      non-empty and has no '.', so the last dot of the stored name is the extension's. */
  lemma StoredNameKeepsExtension(fileName: string, uniqueId: string)
    requires uniqueId != [] && '.' !in uniqueId
    ensures Extension(uniqueId + Extension(fileName)) == Extension(fileName)
  {
    var ext := Extension(fileName);
    var stored := uniqueId + ext;
    var e := Extension(stored);
    if ext == [] {
      assert stored == uniqueId;
      assert forall i :: 0 < i < |stored| ==> stored[i] != '.' by {
        forall i | 0 < i < |stored| ensures stored[i] != '.' {
          assert stored[i] in uniqueId;
        }
      }
    } else {
      assert stored[|uniqueId|] == '.';
      assert e != [];
      var j := |stored| - |e|;
      assert stored[j] == '.';
      if j != |uniqueId| {
        assert false;
      }
      assert e == stored[|uniqueId|..] == ext;
    }
  }
}
