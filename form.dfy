/**
 * Building the multipart form of the OCR request from an ImageSource
 * (src/ocr.rs:46-68).
 */
module Form {
  import opened Wrappers
  import opened OcrTypes

  const LanguageField: FormPart := Text("language", "por")
  const DataUriPrefix: string := "data:image/jpeg;base64,"
  const DefaultFileName: string := "image.png"

  /**
   * Where the last component of `path` starts: just after its last '/', or 0
   * when it has none.
   */
  function ComponentStart(path: string): (k: nat)
    ensures k <= |path|
    ensures forall j :: k <= j < |path| ==> path[j] != '/'
    ensures k > 0 ==> path[k - 1] == '/'
  {
    if path == [] then 0
    else if path[|path| - 1] == '/' then |path|
    else ComponentStart(path[..|path| - 1])
  }

  /** A name that `Path::file_name` can return: one component, neither "." nor "..". */
  predicate IsNormalName(name: string)
  {
    name != "" && name != "." && name != ".." && '/' !in name
  }

  /**
   * `Path::file_name` on a Unix path: trailing '/' are ignored, a "." component
   * is skipped, and a path that ends in "..", is only a root or is empty has
   * no file name.
   */
  function FileName(path: string): (r: Option<string>)
    ensures r.Some? ==> IsNormalName(r.value)
    decreases |path|
  {
    if path == [] then None
    else if path[|path| - 1] == '/' then FileName(path[..|path| - 1])
    else
      var k := ComponentStart(path);
      var last := path[k..];
      if last == "." && k > 0 then FileName(path[..k])
      else if last == "." || last == ".." then None
      else Some(last)
  }

  // Every path is empty, or a single component, or ends in "/" followed by
  // nothing, ".", ".." or a normal name; the lemmas below give FileName in
  // each of these cases.

  /** The empty path, the root and a lone "." or ".." have no file name. */
  lemma FileNameOfNoComponent()
    ensures FileName("") == None && FileName("/") == None
    ensures FileName(".") == None && FileName("..") == None
  {
    assert "/"[..0] == "";
    assert ComponentStart(".") == 0 && "."[0..] == ".";
    assert ComponentStart("..") == 0 && ".."[0..] == "..";
  }

  /** A normal name on its own is its own file name. */
  lemma FileNameOfName(name: string)
    requires IsNormalName(name)
    ensures FileName(name) == Some(name)
  {
    assert ComponentStart(name) == 0;
    assert name[0..] == name;
  }

  /** A trailing '/' changes nothing. */
  lemma FileNameTrailingSlash(path: string)
    ensures FileName(path + "/") == FileName(path)
  {
    assert (path + "/")[..|path|] == path;
  }

  /** A trailing "/." changes nothing: the "." component is skipped. */
  lemma FileNameTrailingDot(path: string)
    ensures FileName(path + "/.") == FileName(path)
  {
    var p := path + "/.";
    var k := ComponentStart(p);
    assert p[|path|] == '/' && p[|path| + 1] == '.';
    assert k == |path| + 1;
    assert p[k..] == ".";
    assert p[..k] == path + "/";
    FileNameTrailingSlash(path);
  }

  /** A path that ends in ".." has no file name. */
  lemma FileNameOfParent(dir: string)
    ensures FileName(dir + "/..") == None
  {
    var path := dir + "/..";
    var k := ComponentStart(path);
    assert path[|dir|] == '/' && path[|dir| + 1] == '.' && path[|dir| + 2] == '.';
    assert k == |dir| + 1;
    assert path[k..] == "..";
  }

  /** A path that ends in "/name" has `name` as its file name. */
  lemma FileNameOfChild(dir: string, name: string)
    requires IsNormalName(name)
    ensures FileName(dir + "/" + name) == Some(name)
  {
    var path := dir + "/" + name;
    var k := ComponentStart(path);
    assert path[|dir|] == '/';
    assert forall j :: |dir| < j < |path| ==> path[j] == name[j - |dir| - 1];
    assert k == |dir| + 1;
    assert path[k..] == name;
  }

  /** From the Rust documentation of `Path::file_name`: trailing '/' are ignored. */
  lemma FileNameExampleDirectory()
    ensures FileName("/usr/bin/") == Some("bin")
  {
    FileNameOfChild("/usr", "bin");
    assert "/usr" + "/" + "bin" == "/usr/bin";
    FileNameTrailingSlash("/usr/bin");
    assert "/usr/bin" + "/" == "/usr/bin/";
  }

  /** From the Rust documentation of `Path::file_name`: a trailing "." component is skipped. */
  lemma FileNameExampleCurrentDir()
    ensures FileName("foo.txt/.") == Some("foo.txt")
  {
    FileNameOfName("foo.txt");
    FileNameTrailingDot("foo.txt");
    assert "foo.txt" + "/." == "foo.txt/.";
  }

  /** From the Rust documentation of `Path::file_name`: a trailing ".." gives no name. */
  lemma FileNameExampleParentDir()
    ensures FileName("foo.txt/..") == None
  {
    FileNameOfParent("foo.txt");
    assert "foo.txt" + "/.." == "foo.txt/..";
  }

  /** The file name sent with the file part: the path's file name, or "image.png" without one. */
  function UploadName(path: string): (name: string)
    ensures name != "" && '/' !in name
    ensures FileName(path) == Some(name) || (FileName(path).None? && name == DefaultFileName)
  {
    FileName(path).UnwrapOr(DefaultFileName)
  }

  /** A file inside a directory uploads under its own name. */
  lemma UploadNameOfChild(dir: string, name: string)
    requires IsNormalName(name)
    ensures UploadName(dir + "/" + name) == name
  {
    FileNameOfChild(dir, name);
  }

  /** A path without a file name uploads as "image.png". */
  lemma UploadNameOfNoComponent(dir: string)
    ensures UploadName("") == DefaultFileName && UploadName("/") == DefaultFileName
    ensures UploadName(".") == DefaultFileName && UploadName(dir + "/..") == DefaultFileName
  {
    FileNameOfNoComponent();
    FileNameOfParent(dir);
  }

  /** The `base64Image` field value: the payload behind a fixed JPEG data-URI prefix. */
  function DataUri(payload: string): (v: string)
    ensures |v| == |DataUriPrefix| + |payload|
    ensures v[..|DataUriPrefix|] == DataUriPrefix
    ensures v[|DataUriPrefix|..] == payload
  {
    DataUriPrefix + payload
  }

  /** Distinct payloads give distinct field values: the prefix hides nothing. */
  lemma DataUriInjective(a: string, b: string)
    requires DataUri(a) == DataUri(b)
    ensures a == b
  {
    assert a == DataUri(a)[|DataUriPrefix|..];
  }

  /**
   * The form the request carries: the `language=por` field followed by
   * exactly one image part, a `file` part holding the file's bytes for a
   * path, or a `base64Image` text field for an inline payload.
   */
  ghost predicate IsRequestForm(form: Form, source: ImageSource, fs: FileSystem)
  {
    |form| == 2 && form[0] == LanguageField &&
    match source
    case FilePath(path) => path in fs && form[1] == File("file", fs[path], UploadName(path))
    case Base64(payload) => form[1] == Text("base64Image", DataUri(payload))
  }

  /**
   * Builds the form as src/ocr.rs:46-68 does, failing with IoError when the
   * image file cannot be read.
   */
  method BuildForm(source: ImageSource, fs: FileSystem) returns (r: Result<Form, OcrError>)
    ensures r.Err? <==> source.FilePath? && source.path !in fs
    ensures r.Err? ==> r.error == IoError
    ensures r.Ok? ==> IsRequestForm(r.value, source, fs)
  {
    var form := [LanguageField];
    match source {
      case FilePath(path) =>
        if path !in fs {
          return Err(IoError);
        }
        var imageData := fs[path];
        var fileName := UploadName(path);
        form := form + [File("file", imageData, fileName)];
      case Base64(payload) =>
        var formatted := DataUri(payload);
        form := form + [Text("base64Image", formatted)];
    }
    r := Ok(form);
  }
}
