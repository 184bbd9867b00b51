/**
 * The 3MF package as the add-on writes and reads it: a ZIP archive whose
 * entries hold XML documents (Open Packaging Conventions, ECMA-376 Part 2),
 * the file system the archive lives in, and the outcomes an operator ends with.
 */
module Package {
  import opened Xml

  /** Namespace of the 3MF core model (3MF Core Specification, chapter 3). */
  const ModelNamespace := "http://schemas.microsoft.com/3dmanufacturing/core/2015/02"
  const ContentTypesNamespace := "http://schemas.openxmlformats.org/package/2006/content-types"
  const RelationshipsNamespace := "http://schemas.openxmlformats.org/package/2006/relationships"

  /** Archive entry names. */
  const ModelPath := "3D/3dmodel.model"
  const ContentTypesPath := "[Content_Types].xml"
  const RelationshipsPath := "_rels/.rels"

  /** An archive entry as the XML parser sees it: a tree, or text it cannot parse. */
  datatype Payload = Xml(root: Element) | Malformed

  /** The content of a file: a ZIP archive from entry name to entry, or anything else. */
  datatype FileData = Zip(entries: map<string, Payload>) | NotZip

  datatype Failure = NoMeshSelected | WriteFailed | NotAZip | ModelPartMissing | MalformedXml | BadNumber

  /**
   * How an operator's `execute` ends: Blender's `{'FINISHED'}` or
   * `{'CANCELLED'}` (with the error it reported), or an exception that
   * escapes `execute`.
   */
  datatype Outcome = Finished | Cancelled(reason: Failure) | Raised(error: Failure)

  /**
   * Where writing the archive raises, if anywhere: opening the file for
   * writing, the `writestr` of entry number `entry` (counted from 0; a
   * number past the last entry never fails), or closing the archive when
   * the `with` block ends. `leftover` is what the file then holds: ZipFile
   * has truncated it on opening and still closes it on the way out, so it
   * may hold part of an entry, or no readable archive at all.
   */
  datatype WriteFault = NoFault | OpenFails | WriteFails(entry: nat, leftover: FileData) | CloseFails(leftover: FileData)

  /** The content-types part: every `.model` entry is a 3D model. */
  const ContentTypesDocument: Element :=
    Element(Name(ContentTypesNamespace, "Types"), map[], [
      Element(Name(ContentTypesNamespace, "Default"),
        map["Extension" := "model", "ContentType" := "application/vnd.ms-package.3dmanufacturing-3dmodel+xml"], [])])

  /** The package relationships part: the root's 3D model is `/3D/3dmodel.model`. */
  const RelationshipsDocument: Element :=
    Element(Name(RelationshipsNamespace, "Relationships"), map[], [
      Element(Name(RelationshipsNamespace, "Relationship"),
        map["Id" := "rel0",
            "Type" := "http://schemas.microsoft.com/3dmanufacturing/2013/01/3dmodel",
            "Target" := "/3D/3dmodel.model"], [])])

  /** The entries of an archive after writing `parts` in order (a later name replaces an earlier one). */
  function Entries(parts: seq<(string, Payload)>): map<string, Payload> {
    if parts == [] then map[]
    else Entries(parts[..|parts| - 1])[parts[|parts| - 1].0 := parts[|parts| - 1].1]
  }

  /** Whether writing `n` entries and closing the archive complete without an exception. */
  predicate WriteSucceeds(fault: WriteFault, n: nat) {
    fault.NoFault? || (fault.WriteFails? && fault.entry >= n)
  }

  /**
   * The files after `with ZipFile(path, 'w') as archive:` writes `parts`:
   * nothing changes when the file cannot be opened; the file at `path`
   * holds an archive of all the parts when nothing raises, and what was
   * left of it otherwise. No other file changes.
   */
  function FilesAfterWrite(files: map<string, FileData>, path: string, parts: seq<(string, Payload)>, fault: WriteFault)
    : (r: map<string, FileData>)
    ensures forall f :: f != path ==> (f in r <==> f in files) && (f in r ==> r[f] == files[f])
    ensures fault.OpenFails? ==> r == files
    ensures WriteSucceeds(fault, |parts|) ==> r == files[path := Zip(Entries(parts))]
    ensures !fault.OpenFails? && !WriteSucceeds(fault, |parts|) ==> r == files[path := fault.leftover]
  {
    if fault.OpenFails? then files
    else if WriteSucceeds(fault, |parts|) then files[path := Zip(Entries(parts))]
    else files[path := fault.leftover]
  }

  class FileSystem {
    var files: map<string, FileData>

    constructor (initial: map<string, FileData>)
      ensures files == initial
    {
      files := initial;
    }
  }

  /** Writes `parts` into a new archive at `path`; `ok` is false when an exception was raised. */
  method WriteArchive(fs: FileSystem, path: string, parts: seq<(string, Payload)>, fault: WriteFault) returns (ok: bool)
    modifies fs
    ensures ok == WriteSucceeds(fault, |parts|)
    ensures fs.files == FilesAfterWrite(old(fs.files), path, parts, fault)
    ensures fault.OpenFails? ==> fs.files == old(fs.files)
    ensures !fault.OpenFails? && !ok ==> fs.files == old(fs.files)[path := fault.leftover]
    ensures ok ==> fs.files == old(fs.files)[path := Zip(Entries(parts))]
  {
    if fault.OpenFails? {
      return false;
    }
    var entries: map<string, Payload> := map[];
    var i := 0;
    while i < |parts| && !(fault.WriteFails? && fault.entry == i)
      invariant 0 <= i <= |parts|
      invariant fault.WriteFails? ==> fault.entry >= i
      invariant entries == Entries(parts[..i])
    {
      assert parts[..i + 1][..i] == parts[..i];
      entries := entries[parts[i].0 := parts[i].1];
      i := i + 1;
    }
    if i < |parts| || fault.CloseFails? {
      fs.files := fs.files[path := fault.leftover];
      return false;
    }
    assert parts[..|parts|] == parts;
    fs.files := fs.files[path := Zip(entries)];
    return true;
  }
}
