/** Registering a finished upload in the file catalog (`OnUploadComplete`
    in upload/handler.go): one file row, one version row numbered 1 and,
    for a real folder, one folder link, written in a transaction that is
    committed only when every insert succeeded; then, for IFC files, the
    conversion is started.

    The tables are in memory.  The inserts work on a staged copy that
    replaces the tables only at the commit, which is what the transaction
    guarantees.  Fresh ids, the clock and the outcome of each database step
    are parameters. */
module Registration {
  import opened Wrappers
  import opened TusUpload
  import SpeckleBridge

  datatype FileRow = FileRow(id: string, createdAt: int, updatedAt: int, name: string, ext: string)

  datatype VersionRow = VersionRow(
    id: string,
    createdAt: int,
    updatedAt: int,
    number: int,
    size: int,
    fileId: string,
    creatorId: string)

  datatype FolderLink = FolderLink(folderId: string, fileId: string)

  /** `arca_file`, `arca_file_version` and `arca_folder_file`. */
  datatype Tables = Tables(files: seq<FileRow>, versions: seq<VersionRow>, links: seq<FolderLink>)

  /** How each step of the transaction ends. */
  datatype TxOracle = TxOracle(
    begin: bool,
    insertFile: bool,
    insertVersion: bool,
    linkFolder: bool,
    commit: bool)

  datatype RegisterError = BeginTx | InsertFile | InsertVersion | LinkFolder | Commit

  /** The identity of one completed upload. */
  datatype Upload = Upload(
    uploadId: string,
    filename: string,
    ext: string,
    folderId: string,
    size: int,
    creatorId: string)

  /** A folder id that names a real folder: neither empty nor "root". */
  predicate IsRealFolder(folderId: string) {
    folderId != "" && folderId != "root"
  }

  /** The rows a successful registration adds. */
  function Registered(t: Tables, u: Upload, fileId: string, versionId: string, now: int): Tables {
    var file := FileRow(fileId, now, now, FileName(u.filename, u.ext), u.ext);
    var version := VersionRow(versionId, now, now, 1, u.size, fileId, u.creatorId);
    Tables(t.files + [file], t.versions + [version],
           t.links + (if IsRealFolder(u.folderId) then [FolderLink(u.folderId, fileId)] else []))
  }

  /** The first step of the transaction that fails, if any. */
  function FailedStep(u: Upload, tx: TxOracle): Option<RegisterError> {
    if !tx.begin then Some(BeginTx)
    else if !tx.insertFile then Some(InsertFile)
    else if !tx.insertVersion then Some(InsertVersion)
    else if IsRealFolder(u.folderId) && !tx.linkFolder then Some(LinkFolder)
    else if !tx.commit then Some(Commit)
    else None
  }

  /** A request to convert the new version, keyed by the upload id. */
  datatype ImportRequest = ImportRequest(fileVersionId: string, objectKey: string)

  /** The conversion is requested after a commit, for an IFC extension,
      when a bridge is configured. */
  function ConversionRequest(u: Upload, versionId: string, committed: bool, bridgeConfigured: bool)
    : Option<ImportRequest>
  {
    if committed && IsIfcFile(u.ext) && bridgeConfigured then Some(ImportRequest(versionId, u.uploadId))
    else None
  }

  /** A successful registration adds exactly one file row and one version
      row, numbered 1 with the upload's size and creator and pointing at
      that file, and a folder link exactly for a real folder. */
  lemma RegisteredRows(t: Tables, u: Upload, fileId: string, versionId: string, now: int)
    ensures var r := Registered(t, u, fileId, versionId, now);
      |r.files| == |t.files| + 1 && r.files[..|t.files|] == t.files &&
      r.files[|t.files|].id == fileId && r.files[|t.files|].ext == u.ext &&
      |r.versions| == |t.versions| + 1 && r.versions[..|t.versions|] == t.versions &&
      r.versions[|t.versions|].number == 1 && r.versions[|t.versions|].size == u.size &&
      r.versions[|t.versions|].creatorId == u.creatorId &&
      r.versions[|t.versions|].fileId == fileId &&
      r.links[..|t.links|] == t.links &&
      (IsRealFolder(u.folderId) <==> |r.links| == |t.links| + 1) &&
      (IsRealFolder(u.folderId) ==> r.links[|t.links|] == FolderLink(u.folderId, fileId)) &&
      (!IsRealFolder(u.folderId) ==> r.links == t.links)
  {
  }

  /** The file's name and extension put back together give the uploaded
      file name whenever the extension is the one derived from it. */
  lemma RegisteredName(t: Tables, u: Upload, fileId: string, versionId: string, now: int)
    requires u.ext == FileExt(u.filename) && u.ext != ""
    ensures var f := Registered(t, u, fileId, versionId, now).files[|t.files|];
      f.name + "." + f.ext == u.filename
  {
    NameAndExt(u.filename);
  }

  /** Conversion needs all three conditions. */
  lemma ConversionConditions(u: Upload, versionId: string, committed: bool, bridge: bool)
    ensures ConversionRequest(u, versionId, committed, bridge).Some? <==>
            committed && IsIfcFile(u.ext) && bridge
    ensures ConversionRequest(u, versionId, committed, bridge).Some? ==>
            ConversionRequest(u, versionId, committed, bridge).value.fileVersionId == versionId
  {
  }

  class Catalog {
    var tables: Tables

    constructor (t: Tables)
      ensures tables == t
    {
      tables := t;
    }

    /** `OnUploadComplete`: the inserts on a staged copy, the commit, and
        the conversion request.  The tables change only on success, and
        then by exactly the registered rows. */
    method OnUploadComplete(u: Upload, fileId: string, versionId: string, now: int,
                            tx: TxOracle, bridgeConfigured: bool)
      returns (error: Option<RegisterError>, conversion: Option<ImportRequest>)
      modifies this
      ensures error == FailedStep(u, tx)
      ensures error.None? ==> tables == Registered(old(tables), u, fileId, versionId, now)
      ensures error.Some? ==> tables == old(tables)
      ensures conversion == ConversionRequest(u, versionId, error.None?, bridgeConfigured)
    {
      conversion := None;
      if !tx.begin {
        return Some(BeginTx), None;
      }
      var staged := tables;
      staged := staged.(files := staged.files + [FileRow(fileId, now, now, FileName(u.filename, u.ext), u.ext)]);
      if !tx.insertFile {
        return Some(InsertFile), None;
      }
      staged := staged.(versions := staged.versions + [VersionRow(versionId, now, now, 1, u.size, fileId, u.creatorId)]);
      if !tx.insertVersion {
        return Some(InsertVersion), None;
      }
      if u.folderId != "" && u.folderId != "root" {
        staged := staged.(links := staged.links + [FolderLink(u.folderId, fileId)]);
        if !tx.linkFolder {
          return Some(LinkFolder), None;
        }
      }
      if !tx.commit {
        return Some(Commit), None;
      }
      tables := staged;
      error := None;
      if IsIfcFile(u.ext) && bridgeConfigured {
        conversion := Some(ImportRequest(versionId, u.uploadId));
      }
    }
  }

  /** The upload completion followed by the conversion it requests.  The
      conversion runs on its own, with its own clock readings; whatever it
      meets, the registration stays as committed. */
  method CompleteAndConvert(catalog: Catalog, bridge: SpeckleBridge.Bridge, u: Upload,
                            fileId: string, versionId: string, now: int, tx: TxOracle,
                            triggerTimes: SpeckleBridge.TriggerTimes, trigger: SpeckleBridge.TriggerOracle)
    returns (error: Option<RegisterError>)
    modifies catalog, bridge
    ensures error == FailedStep(u, tx)
    ensures error.None? ==> catalog.tables == Registered(old(catalog.tables), u, fileId, versionId, now)
    ensures error.Some? ==> catalog.tables == old(catalog.tables) && bridge.rows == old(bridge.rows)
    ensures error.None? && IsIfcFile(u.ext) ==>
      bridge.rows == SpeckleBridge.Trigger(old(bridge.rows), versionId, triggerTimes, trigger).0
    ensures !IsIfcFile(u.ext) ==> bridge.rows == old(bridge.rows)
  {
    var conversion;
    error, conversion := catalog.OnUploadComplete(u, fileId, versionId, now, tx, true);
    if conversion.Some? {
      var _, _ := bridge.TriggerImport(conversion.value.fileVersionId, conversion.value.objectKey, triggerTimes, trigger);
    }
  }
}
