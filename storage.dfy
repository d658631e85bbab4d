/** The curriculum file store of src/services/firebase/storage.service.ts: the file name rewritten to a
    safe character set, the storage path an upload is filed under, and which failures of a delete are
    passed on. The clock reading and the storage service's answers are parameters. */
module Storage {
  import opened Wrappers
  import Text

  /** The characters `[a-zA-Z0-9.\-_]` keeps. */
  predicate SafeChar(c: char) {
    ('a' <= c <= 'z') || ('A' <= c <= 'Z') || ('0' <= c <= '9') || c == '.' || c == '-' || c == '_'
  }

  /** `name.replace(/[^a-zA-Z0-9.\-_]/g, "_")`: every other character becomes an underscore. */
  function Sanitize(name: string): (r: string)
    ensures |r| == |name|
    ensures forall i :: 0 <= i < |r| ==> SafeChar(r[i])
    ensures forall i :: 0 <= i < |name| && SafeChar(name[i]) ==> r[i] == name[i]
    ensures forall i :: 0 <= i < |name| && !SafeChar(name[i]) ==> r[i] == '_'
  {
    if name == [] then []
    else
      var c := name[0];
      var rest := Sanitize(name[1..]);
      assert forall i :: 1 <= i < |name| ==> name[i] == name[1..][i - 1];
      [if SafeChar(c) then c else '_'] + rest
  }

  /** A name made of safe characters is left as it is. */
  lemma SanitizeKeepsSafe(name: string)
    requires forall i :: 0 <= i < |name| ==> SafeChar(name[i])
    ensures Sanitize(name) == name
  {
  }

  /** Sanitizing twice is sanitizing once. */
  lemma SanitizeIdempotent(name: string)
    ensures Sanitize(Sanitize(name)) == Sanitize(name)
  {
    SanitizeKeepsSafe(Sanitize(name));
  }

  /** `curriculums/${classId}/${timestamp}-${sanitizedFileName}`. The path reads back: after the class
      folder, the first "-" ends the timestamp, whose digits give the clock reading, and the rest is the
      sanitized name. */
  function StoragePath(classId: string, timestamp: nat, fileName: string): (path: string)
    ensures Text.StartsWith(path, "curriculums/" + classId + "/")
    ensures var folder := "curriculums/" + classId + "/";
      var file := path[|folder|..];
      Text.IndexOf(file, "-").Some?
      && var k := Text.IndexOf(file, "-").value;
         Text.AllDigits(file[..k]) && Text.DigitsValue(file[..k]) == timestamp && file[k + 1..] == Sanitize(fileName)
  {
    var folder := "curriculums/" + classId + "/";
    var file := Text.NatToString(timestamp) + "-" + Sanitize(fileName);
    var path := folder + file;
    assert path[..|folder|] == folder;
    assert path[|folder|..] == file;
    FileNameReadsBack(timestamp, fileName);
    path
  }

  /** The file part of a path: the clock reading's digits up to the first "-", then the sanitized name. */
  lemma FileNameReadsBack(timestamp: nat, fileName: string)
    ensures var digits := Text.NatToString(timestamp);
      var file := digits + "-" + Sanitize(fileName);
      Text.IndexOf(file, "-") == Some(|digits|)
      && file[..|digits|] == digits && Text.AllDigits(digits) && Text.DigitsValue(digits) == timestamp
      && file[|digits| + 1..] == Sanitize(fileName)
  {
    var digits := Text.NatToString(timestamp);
    var file := digits + "-" + Sanitize(fileName);
    Text.DigitsAvoidDash(digits);
    Text.IndexOfAfterPrefix(digits, "-", Sanitize(fileName));
    assert file[..|digits|] == digits;
    assert file[|digits| + 1..] == Sanitize(fileName);
    Text.NatToStringValue(timestamp);
  }

  /** What uploadBytes is given: the path and `file.type || "application/pdf"`. */
  datatype UploadRequest = UploadRequest(path: string, contentType: string)

  function UploadRequestFor(classId: string, now: nat, fileName: string, fileType: string): (r: UploadRequest)
    ensures r.path == StoragePath(classId, now, fileName)
    ensures fileType != "" ==> r.contentType == fileType
    ensures fileType == "" ==> r.contentType == "application/pdf"
  {
    UploadRequest(StoragePath(classId, now, fileName), if fileType == "" then "application/pdf" else fileType)
  }

  /** How a deleteFileByPath call ends. */
  datatype DeleteOutcome =
    | Skipped                 // empty path: nothing is asked of the store
    | Deleted
    | AlreadyGone             // "storage/object-not-found", swallowed
    | Rethrown(code: string)  // any other failure is passed on to the caller

  /** deleteFileByPath: `failure` is the error code the store answered with, None when it deleted. */
  function DeleteFileByPath(path: string, failure: Option<string>): (r: DeleteOutcome)
    ensures r == Skipped <==> path == ""
    ensures r.Rethrown? <==> path != "" && failure.Some? && failure.value != "storage/object-not-found"
    ensures r.Rethrown? ==> r.code == failure.value
    ensures r == Deleted <==> path != "" && failure.None?
  {
    if path == "" then Skipped
    else match failure
      case None => Deleted
      case Some(code) => if code != "storage/object-not-found" then Rethrown(code) else AlreadyGone
  }
}
