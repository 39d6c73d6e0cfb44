/** Shared helpers: terminal previews, content hashes, YAML files and directory creation. */
module Utils {
  import opened Wrappers
  import opened Text
  import FileSys

  // ---------------------------------------------------------------------------
  // Previews

  const PreviewLimit := 80
  const PreviewKeep := 76
  const Ellipsis := "..."

  /** Bodies longer than 80 characters are cut to their first 76 followed by "...". */
  function CreatePreview(body: string): (r: string)
    ensures |r| <= PreviewLimit
    ensures |body| <= PreviewLimit ==> r == body
    ensures |body| > PreviewLimit ==>
      |r| == PreviewKeep + |Ellipsis| && r[..PreviewKeep] == body[..PreviewKeep] && HasSuffix(r, Ellipsis)
  {
    if |body| > PreviewLimit then body[..PreviewKeep] + Ellipsis else body
  }

  lemma PreviewIdempotent(body: string)
    ensures CreatePreview(CreatePreview(body)) == CreatePreview(body)
  {
  }

  // ---------------------------------------------------------------------------
  // Content hashes: the hex encoding of an abstract 16-byte digest

  type Byte = b: int | 0 <= b < 256

  type Digest = d: seq<Byte> | |d| == 16 witness [0, 0, 0, 0, 0, 0, 0, 0, 0, 0, 0, 0, 0, 0, 0, 0]

  /** The RFC 1321 message digest of a content, left abstract. */
  type Md5 = string -> Digest

  const HexChars := "0123456789abcdef"

  predicate IsLowerHex(s: string) {
    forall i :: 0 <= i < |s| ==> s[i] in HexChars
  }

  /** hex.EncodeToString: two lower-case digits per byte, high nibble first. */
  function HexEncode(bs: seq<Byte>): (r: string)
    ensures |r| == 2 * |bs| && IsLowerHex(r)
  {
    if bs == [] then ""
    else [HexChars[bs[0] / 16], HexChars[bs[0] % 16]] + HexEncode(bs[1..])
  }

  function HexValue(c: char): int {
    if '0' <= c <= '9' then c as int - '0' as int
    else if 'a' <= c <= 'f' then c as int - 'a' as int + 10
    else -1
  }

  function HexDecode(s: string): Option<seq<Byte>>
    decreases |s|
  {
    if s == [] then Some([])
    else if |s| < 2 || HexValue(s[0]) < 0 || HexValue(s[1]) < 0 then None
    else
      match HexDecode(s[2..])
      case None => None
      case Some(rest) => Some([(HexValue(s[0]) * 16 + HexValue(s[1])) as Byte] + rest)
  }

  lemma HexDigitValue(d: int)
    requires 0 <= d < 16
    ensures HexValue(HexChars[d]) == d
  {
    if d < 10 {
      assert HexChars[d] as int == '0' as int + d;
    } else {
      assert HexChars[d] as int == 'a' as int + d - 10;
    }
  }

  lemma DecodePair(hi: int, lo: int, t: string)
    requires 0 <= hi < 16 && 0 <= lo < 16
    ensures HexDecode([HexChars[hi], HexChars[lo]] + t) ==
      if HexDecode(t).None? then None else Some([(hi * 16 + lo) as Byte] + HexDecode(t).value)
  {
    HexDigitValue(hi);
    HexDigitValue(lo);
    DecodeTwo(HexChars[hi], HexChars[lo], t);
  }

  lemma DecodeTwo(a: char, b: char, t: string)
    requires 0 <= HexValue(a) && 0 <= HexValue(b)
    ensures HexDecode([a, b] + t) ==
      if HexDecode(t).None? then None else Some([(HexValue(a) * 16 + HexValue(b)) as Byte] + HexDecode(t).value)
  {
    var s := [a, b] + t;
    assert s[0] == a && s[1] == b && s[2..] == t;
  }

  lemma {:induction false} HexRoundTrip(bs: seq<Byte>)
    ensures HexDecode(HexEncode(bs)) == Some(bs)
  {
    if bs != [] {
      DecodePair(bs[0] / 16, bs[0] % 16, HexEncode(bs[1..]));
      HexRoundTrip(bs[1..]);
      assert bs == [bs[0]] + bs[1..];
    }
  }

  /** utils.CalculateMD5Hash */
  function CalculateMD5Hash(md5: Md5, content: string): (h: string)
    ensures |h| == 32 && IsLowerHex(h)
  {
    HexEncode(md5(content))
  }

  /** Two contents get the same hash exactly when their digests agree. */
  lemma HashMatchesDigest(md5: Md5, a: string, b: string)
    ensures CalculateMD5Hash(md5, a) == CalculateMD5Hash(md5, b) <==> md5(a) == md5(b)
  {
    HexRoundTrip(md5(a));
    HexRoundTrip(md5(b));
  }

  // ---------------------------------------------------------------------------
  // YAML files

  /** A YAML marshaller and unmarshaller for values of type T; None stands for failure. */
  datatype Yaml<!T> = Yaml(marshal: T -> Option<string>, unmarshal: string -> Option<T>)

  datatype UtilsError =
    | FailedToMarshalYAML
    | FailedToUnmarshalYAML
    | FailedToReadFile(path: FileSys.Path, cause: FileSys.IoError)
    | FailedToCreateDirectory(path: FileSys.Path, cause: FileSys.IoError)

  function ConvertToYAML<T>(yaml: Yaml<T>, v: T): (r: Result<string, UtilsError>)
    ensures r.Ok? <==> yaml.marshal(v).Some?
    ensures r.Ok? ==> r.value == yaml.marshal(v).value
  {
    match yaml.marshal(v)
    case None => Err(FailedToMarshalYAML)
    case Some(text) => Ok(text)
  }

  function ReadFile(fs: FileSys.FS, path: FileSys.Path): (r: Result<string, UtilsError>)
    ensures r.Ok? <==> FileSys.ReadFile(fs, path).Ok?
    ensures r.Ok? ==> r.value == FileSys.ReadFile(fs, path).value
    ensures r.Err? ==> r.error == FailedToReadFile(path, FileSys.ReadFile(fs, path).error)
  {
    match FileSys.ReadFile(fs, path)
    case Err(e) => Err(FailedToReadFile(path, e))
    case Ok(data) => Ok(data)
  }

  /** Reads a file and unmarshals it; a read failure is reported before a decoding one. */
  function ReadYAMLFile<T>(yaml: Yaml<T>, fs: FileSys.FS, path: FileSys.Path): (r: Result<T, UtilsError>)
    ensures r.Ok? <==> ReadFile(fs, path).Ok? && yaml.unmarshal(ReadFile(fs, path).value).Some?
    ensures r.Ok? ==> r.value == yaml.unmarshal(ReadFile(fs, path).value).value
  {
    match ReadFile(fs, path)
    case Err(e) => Err(e)
    case Ok(text) =>
      match yaml.unmarshal(text)
      case None => Err(FailedToUnmarshalYAML)
      case Some(v) => Ok(v)
  }

  // ---------------------------------------------------------------------------
  // Directories

  /** utils.EnsureDir: os.MkdirAll with mode 0755, its error wrapped with the path. */
  function EnsureDir(fs: FileSys.FS, path: FileSys.Path, mtime: int): (r: Result<FileSys.FS, UtilsError>)
    ensures r.Ok? <==> FileSys.MkdirAll(fs, path, mtime).Ok?
    ensures r.Ok? ==> r.value == FileSys.MkdirAll(fs, path, mtime).value
  {
    match FileSys.MkdirAll(fs, path, mtime)
    case Err(e) => Err(FailedToCreateDirectory(path, e))
    case Ok(fs2) => Ok(fs2)
  }

  /** After EnsureDir the path is a directory that can be reached, every node that was
      there before (files included) is untouched, and the tree stays well formed. */
  lemma EnsureDirOk(fs: FileSys.FS, path: FileSys.Path, mtime: int)
    requires FileSys.WF(fs)
    requires EnsureDir(fs, path, mtime).Ok?
    ensures var r := EnsureDir(fs, path, mtime).value;
      && FileSys.Stat(r, path).Ok? && FileSys.Stat(r, path).value.Dir?
      && FileSys.Extends(fs, r) && FileSys.WF(r)
  {
    FileSys.MkdirAllOk(fs, path, mtime);
  }

  /** A second EnsureDir of the same path is the identity, so two calls act like one. */
  lemma EnsureDirTwice(fs: FileSys.FS, path: FileSys.Path, mtime1: int, mtime2: int)
    requires FileSys.WF(fs)
    requires EnsureDir(fs, path, mtime1).Ok?
    ensures var r := EnsureDir(fs, path, mtime1).value; EnsureDir(r, path, mtime2) == Ok(r)
  {
    FileSys.MkdirAllIdempotent(fs, path, mtime1, mtime2);
  }
}
