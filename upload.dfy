/**
 * app/utils/upload.py: the extension rule, the accumulating image check
 * and the names and URLs the two uploaders produce. Decoding, re-encoding,
 * the MIME sniffer and the storage back ends are parameters.
 */
module Upload {
  import opened Wrappers
  import opened Text

  type byte = bv8

  const ALLOWED_EXTENSIONS: set<string> := {"png", "jpg", "jpeg", "gif"}
  const MAX_FILE_SIZE := 5 * 1024 * 1024

  /** How many leading bytes the content check hands to the sniffer. */
  const SNIFF_LENGTH := 2048

  /** `allowed_file`: a '.' occurs and the text after the last one, lowercased, is an allowed extension. */
  function AllowedFile(filename: string): (ok: bool)
    ensures ok <==> exists i :: LastDot(filename, i) && Lower(filename[i + 1..]) in ALLOWED_EXTENSIONS
  {
    var ok := '.' in filename && Lower(AfterLast(filename, '.')) in ALLOWED_EXTENSIONS;
    DotExtension(filename);
    ok
  }

  /** `s[i]` is the last '.' in `s`. */
  predicate LastDot(s: string, i: int)
  {
    0 <= i < |s| && s[i] == '.' && '.' !in s[i + 1..]
  }

  /** The text after the last '.' is the suffix after the one '.' that has no '.' behind it. */
  lemma DotExtension(s: string)
    ensures forall i :: LastDot(s, i) ==> '.' in s && AfterLast(s, '.') == s[i + 1..]
    ensures '.' in s ==> exists i :: LastDot(s, i) && AfterLast(s, '.') == s[i + 1..]
  {
    if '.' in s {
      var r := AfterLast(s, '.');
      var i := |s| - |r| - 1;
      assert s == s[..i] + ['.'] + r;
      assert s[i] == '.' && s[i + 1..] == r;
      assert LastDot(s, i);
      forall j | LastDot(s, j)
        ensures j == i
      {
      }
    }
  }

  /**
   * Whatever comes before the last '.', dots included, the name is
   * allowed exactly when the text after it, lowercased, is an image
   * extension.
   */
  lemma LastExtensionDecides(p: string, e: string)
    requires '.' !in e
    ensures AllowedFile(p + "." + e) <==> Lower(e) in ALLOWED_EXTENSIONS
  {
    AfterLastSuffix(p, e);
    assert (p + "." + e)[|p|] == '.';
  }

  /** Case is ignored. */
  lemma UpperCaseAllowed()
    ensures AllowedFile("a.JPG")
  {
    AfterLastSuffix("a", "JPG");
    assert "a" + "." + "JPG" == "a.JPG";
    assert Lower("JPG") == "jpg";
  }

  /** So a double extension ending in an image one passes... */
  lemma LastExtensionAllowed()
    ensures AllowedFile("x.exe.png")
  {
    AfterLastSuffix("x.exe", "png");
    assert "x.exe" + "." + "png" == "x.exe.png";
    assert Lower("png") == "png";
  }

  /** ...and one ending in another extension fails. */
  lemma EarlierExtensionIgnored()
    ensures !AllowedFile("x.png.exe")
  {
    AfterLastSuffix("x.png", "exe");
    assert "x.png" + "." + "exe" == "x.png.exe";
    assert Lower("exe") == "exe";
  }

  /** A bare extension with no '.' fails. */
  lemma NoDotRejected()
    ensures !AllowedFile("png")
  {
    assert "png"[0] != '.' && "png"[1] != '.' && "png"[2] != '.';
  }

  /** One finding of `validate_image`; the messages are fixed texts in the source. */
  datatype ImageError =
    | NoFile           // "No file provided"
    | TooLarge         // "File size exceeds maximum limit of 5.0MB"
    | TypeNotAllowed   // "File type not allowed. Allowed types: …"
    | NotAnImage       // "File must be an image"

  /** A MIME sniffer: what `magic.Magic(mime=True).from_buffer` says of some bytes. */
  type Sniffer = seq<byte> -> string

  /**
   * What `validate_image` returns for a file that is present: size,
   * extension and content are all checked, each failure adding its
   * error, in that order; an absent or unnamed file gives only `NoFile`.
   */
  function ImageErrors(present: bool, filename: string, content: seq<byte>, sniff: Sniffer): (errs: seq<ImageError>)
    ensures !present ==> errs == [NoFile]
    ensures present ==> NoFile !in errs && |errs| <= 3
  {
    if !present then [NoFile]
    else
      (if |content| > MAX_FILE_SIZE then [TooLarge] else []) +
      (if !AllowedFile(filename) then [TypeNotAllowed] else []) +
      (if !StartsWith(sniff(Head(content)), "image/") then [NotAnImage] else [])
  }

  /** The bytes `file.read(2048)` gives from the start. */
  function Head(content: seq<byte>): (h: seq<byte>)
    ensures |h| == if |content| < SNIFF_LENGTH then |content| else SNIFF_LENGTH
    ensures h == content[..|h|]
  {
    if |content| < SNIFF_LENGTH then content else content[..SNIFF_LENGTH]
  }

  /** The list is empty exactly when a file is there and passes all three checks. */
  lemma NoErrorsIff(present: bool, filename: string, content: seq<byte>, sniff: Sniffer)
    ensures ImageErrors(present, filename, content, sniff) == [] <==>
      present && |content| <= MAX_FILE_SIZE && AllowedFile(filename) && StartsWith(sniff(Head(content)), "image/")
  {
    var errs := ImageErrors(present, filename, content, sniff);
    if present && !(|content| <= MAX_FILE_SIZE && AllowedFile(filename) && StartsWith(sniff(Head(content)), "image/")) {
      assert |errs| > 0;
    }
  }

  /** Each error is reported exactly when its check fails. */
  lemma ErrorsReported(filename: string, content: seq<byte>, sniff: Sniffer)
    ensures var errs := ImageErrors(true, filename, content, sniff);
      && (TooLarge in errs <==> |content| > MAX_FILE_SIZE)
      && (TypeNotAllowed in errs <==> !AllowedFile(filename))
      && (NotAnImage in errs <==> !StartsWith(sniff(Head(content)), "image/"))
      && NoFile !in errs
  {
  }

  /** The reported errors come in the order size, extension, content, none twice. */
  lemma ErrorsOrdered(filename: string, content: seq<byte>, sniff: Sniffer)
    ensures var errs := ImageErrors(true, filename, content, sniff);
      forall i, j :: 0 <= i < j < |errs| ==> Rank(errs[i]) < Rank(errs[j])
  {
  }

  /** The position of each check in `validate_image`. */
  function Rank(e: ImageError): nat
  {
    match e
    case NoFile => 0
    case TooLarge => 1
    case TypeNotAllowed => 2
    case NotAnImage => 3
  }

  /** A file of exactly 5 MiB passes the size check; one byte more fails it. */
  lemma SizeBoundary(filename: string, content: seq<byte>, sniff: Sniffer)
    ensures |content| == MAX_FILE_SIZE ==> TooLarge !in ImageErrors(true, filename, content, sniff)
    ensures |content| == MAX_FILE_SIZE + 1 ==> TooLarge in ImageErrors(true, filename, content, sniff)
  {
  }

  /**
   * The uploaded file object (werkzeug's `FileStorage`): its name, its
   * bytes and its stream position. It is false in a boolean test exactly
   * when it has no name.
   */
  class UploadedFile {
    const filename: string
    const content: seq<byte>
    var pos: nat

    constructor (filename: string, content: seq<byte>)
      ensures this.filename == filename && this.content == content && pos == 0
    {
      this.filename := filename;
      this.content := content;
      pos := 0;
    }

    /** `file.seek(0, os.SEEK_END)`. */
    method SeekEnd()
      modifies this
      ensures pos == |content|
    {
      pos := |content|;
    }

    /** `file.seek(offset)`. */
    method Seek(offset: nat)
      modifies this
      ensures pos == offset
    {
      pos := offset;
    }

    /** `file.tell()`. */
    method Tell() returns (p: nat)
      ensures p == pos
    {
      p := pos;
    }

    /** `file.read(n)`: up to `n` bytes from the position, which moves past them. */
    method Read(n: nat) returns (bytes: seq<byte>)
      modifies this
      ensures old(pos) <= |content| ==> bytes == content[old(pos)..Min(old(pos) + n, |content|)]
      ensures old(pos) > |content| ==> bytes == []
      ensures pos == old(pos) + |bytes|
    {
      if pos <= |content| {
        bytes := content[pos..Min(pos + n, |content|)];
      } else {
        bytes := [];
      }
      pos := pos + |bytes|;
    }
  }

  function Min(a: int, b: int): int
  {
    if a < b then a else b
  }

  /**
   * `validate_image(file)`: the errors, appended one by one; the file's
   * position is back at the start afterwards.
   */
  method ValidateImage(file: UploadedFile?, sniff: Sniffer) returns (errors: seq<ImageError>)
    modifies file
    ensures file == null ==> errors == [NoFile]
    ensures file != null ==> errors == ImageErrors(file.filename != "", file.filename, file.content, sniff)
    ensures file != null && file.filename != "" ==> file.pos == 0
    ensures file != null && file.filename == "" ==> file.pos == old(file.pos)
  {
    errors := [];
    if file == null || file.filename == "" {
      errors := errors + [NoFile];
      return;
    }
    file.SeekEnd();
    var size := file.Tell();
    file.Seek(0);
    if size > MAX_FILE_SIZE {
      errors := errors + [TooLarge];
    }
    if !AllowedFile(file.filename) {
      errors := errors + [TypeNotAllowed];
    }
    var head := file.Read(SNIFF_LENGTH);
    file.Seek(0);
    if !StartsWith(sniff(head), "image/") {
      errors := errors + [NotAnImage];
    }
  }

  /** How an uploader's `upload_file` ends: the stored image's URL, or the `ValueError` it raises. */
  datatype UploadResult = Url(url: string) | Failed(message: string)

  const PROCESSING_ERROR := "Error processing upload"
  const S3_ERROR := "Error uploading to S3"

  /** What the storage call did: stored, a `ClientError`, or some other exception. */
  datatype StoreOutcome = Stored | ClientError | OtherError

  /**
   * `file.filename.rsplit('.', 1)[1].lower()`: the lowercased text after
   * the last '.', or `None` for a name without one, where indexing
   * `rsplit('.', 1)[1]` raises IndexError.
   */
  function Extension(filename: string): (ext: Option<string>)
    ensures ext.Some? <==> '.' in filename
    ensures ext.Some? ==> ext.value == Lower(AfterLast(filename, '.')) && '.' !in ext.value
  {
    if '.' in filename then
      LowerKeeps(AfterLast(filename, '.'), '.');
      Some(Lower(AfterLast(filename, '.')))
    else None
  }

  /**
   * `LocalUploader.upload_file`: the name is the uuid and the original
   * extension; `optimized` and `written` say whether re-encoding and the
   * file write succeeded. Any failure is "Error processing upload".
   */
  function LocalUpload(filename: string, uuid: string, optimized: bool, written: bool): (r: UploadResult)
    ensures r.Url? <==> '.' in filename && optimized && written
    ensures r.Url? ==> r.url == LOCAL_PREFIX + uuid + "." + Extension(filename).value
    ensures r.Failed? ==> r.message == PROCESSING_ERROR
  {
    match Extension(filename)
    case None => Failed(PROCESSING_ERROR)
    case Some(ext) =>
      if !optimized || !written then Failed(PROCESSING_ERROR)
      else Url(LOCAL_PREFIX + uuid + "." + ext)
  }

  /** Where `LocalUploader` serves its files from. */
  const LOCAL_PREFIX := "/uploads/profile-images/"

  /** The public URL of key `folder/…` in `bucket`, up to the stored name. */
  function S3Prefix(bucket: string, folder: string): string
  {
    "https://" + bucket + ".s3.amazonaws.com/" + folder + "/"
  }

  /**
   * `S3Uploader.upload_file`: the key is `folder/uuid.ext` in `bucket`; a
   * `ClientError` from the upload is "Error uploading to S3", every other
   * failure "Error processing upload".
   */
  function S3Upload(filename: string, uuid: string, bucket: string, folder: string, optimized: bool,
                    stored: StoreOutcome): (r: UploadResult)
    ensures r.Url? <==> '.' in filename && optimized && stored == Stored
    ensures r.Failed? ==> r.message == (if '.' in filename && optimized && stored == ClientError then S3_ERROR else PROCESSING_ERROR)
    ensures r.Url? ==> r.url == S3Prefix(bucket, folder) + uuid + "." + Extension(filename).value
  {
    match Extension(filename)
    case None => Failed(PROCESSING_ERROR)
    case Some(ext) =>
      if !optimized then Failed(PROCESSING_ERROR)
      else if stored.ClientError? then Failed(S3_ERROR)
      else if stored.OtherError? then Failed(PROCESSING_ERROR)
      else Url(S3Prefix(bucket, folder) + uuid + "." + ext)
  }

  /** The folder `upload_file` uses when none is given. */
  const DEFAULT_FOLDER := "profile-images"

  /**
   * Both URLs end in the file's own lowercased last extension, and when
   * the uuid has no '.' that extension is what the URL's last '.' gives
   * back, so an allowed file yields an allowed URL extension.
   */
  lemma UrlExtension(filename: string, uuid: string, bucket: string, folder: string, r: UploadResult)
    requires r == LocalUpload(filename, uuid, true, true) || r == S3Upload(filename, uuid, bucket, folder, true, Stored)
    requires '.' in filename && '.' !in uuid
    ensures r.Url? && AfterLast(r.url, '.') == Extension(filename).value
    ensures AllowedFile(filename) ==> AfterLast(r.url, '.') in ALLOWED_EXTENSIONS
  {
    var ext := Extension(filename).value;
    var prefix := if r == LocalUpload(filename, uuid, true, true) then LOCAL_PREFIX + uuid
      else S3Prefix(bucket, folder) + uuid;
    assert r.url == prefix + "." + ext;
    AfterLastSuffix(prefix, ext);
  }

  /**
   * A URL built from a prefix, a uuid without '.' and an extension gives
   * both back: the extension is the text after the last '.', the uuid the
   * text between the prefix and that '.'.
   */
  lemma NameReadback(p: string, uuid: string, ext: string)
    requires '.' !in uuid && '.' !in ext
    ensures var u := p + uuid + "." + ext;
      && AfterLast(u, '.') == ext
      && |p| <= |u| - |ext| - 1
      && u[..|p|] == p && u[|p|..|u| - |ext| - 1] == uuid
  {
    var u := p + uuid + "." + ext;
    assert u == (p + uuid) + "." + ext;
    AfterLastSuffix(p + uuid, ext);
    assert u[|p|..|u| - |ext| - 1] == (p + uuid)[|p|..];
  }

  /** The local uploader's URL gives back the uuid it was built from and the file's own extension. */
  lemma LocalUrlReadback(filename: string, uuid: string)
    requires '.' in filename && '.' !in uuid
    ensures var ext, r := Extension(filename).value, LocalUpload(filename, uuid, true, true);
      && r.Url? && AfterLast(r.url, '.') == ext && |LOCAL_PREFIX| <= |r.url| - |ext| - 1
      && r.url[..|LOCAL_PREFIX|] == LOCAL_PREFIX && r.url[|LOCAL_PREFIX|..|r.url| - |ext| - 1] == uuid
  {
    NameReadback(LOCAL_PREFIX, uuid, Extension(filename).value);
  }

  /** So does the S3 uploader's, after the bucket's host and the folder. */
  lemma S3UrlReadback(filename: string, uuid: string, bucket: string, folder: string)
    requires '.' in filename && '.' !in uuid
    ensures var ext, p, r := Extension(filename).value, S3Prefix(bucket, folder),
        S3Upload(filename, uuid, bucket, folder, true, Stored);
      && r.Url? && AfterLast(r.url, '.') == ext && |p| <= |r.url| - |ext| - 1
      && r.url[..|p|] == p && r.url[|p|..|r.url| - |ext| - 1] == uuid
  {
    NameReadback(S3Prefix(bucket, folder), uuid, Extension(filename).value);
  }

  /** The text after the last '.' of `p + "." + e` is `e` when `e` has no '.'. */
  lemma AfterLastSuffix(p: string, e: string)
    requires '.' !in e
    ensures AfterLast(p + "." + e, '.') == e
  {
    var s := p + "." + e;
    var r := AfterLast(s, '.');
    assert s[|p|] == '.';
    var i := |s| - |r| - 1;
    assert s == s[..i] + ['.'] + r;
    assert r == s[i + 1..];
  }

  /** The back end `get_uploader` picks. */
  datatype Uploader = S3Uploader | LocalUploader

  /** `get_uploader`: S3 exactly when `USE_S3` (default 'false') lowercased is 'true'. */
  function GetUploader(useS3: Option<string>): (u: Uploader)
    ensures u == S3Uploader <==> useS3.Some? && Lower(useS3.value) == "true"
  {
    if Lower(useS3.GetOr("false")) == "true" then S3Uploader else LocalUploader
  }

  /** Any spelling of 'true' picks S3; an unset variable picks local storage. */
  lemma GetUploaderExamples()
    ensures GetUploader(Some("TRUE")) == S3Uploader && GetUploader(Some("True")) == S3Uploader
    ensures GetUploader(None) == LocalUploader && GetUploader(Some("1")) == LocalUploader
  {
    assert Lower("TRUE") == "true";
    assert Lower("True") == "true";
    assert Lower("false") == "false";
    assert Lower("1") == "1";
  }
}
