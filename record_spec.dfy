/** The artifact tree of the record store and what each store operation reads and writes,
    stated as functions of the file system seen from the store root:

      templates/<T>.yaml           a template, stored under its content hash T
      requests/<T>/<R>.yaml        a request of template T, stored under its content hash R
      responses/<R>/<ID>.yaml      a response to request R, stored under a generated ID

    The store methods in module Record are proved to compute exactly these functions. */
module RecordSpec {
  import opened Wrappers
  import opened Text
  import opened FileSys
  import Utils
  import Clock
  import opened Request
  import opened Response

  // ---------------------------------------------------------------------------
  // Layout

  const TemplatesDir := "templates"
  const RequestsDir := "requests"
  const ResponsesDir := "responses"
  const YamlExt := ".yaml"

  function TemplateDir(): Path { [TemplatesDir] }
  function RequestDir(t: string): Path { [RequestsDir, t] }
  function ResponseDir(r: string): Path { [ResponsesDir, r] }

  /** A name that filepath.Join keeps as one path element: not empty, not "." or "..",
      and without a separator. The layout functions above are exact for such names. */
  predicate PlainElement(n: string) {
    n != "" && n != "." && n != ".." && '/' !in n
  }

  function TemplatePath(t: string): Path { TemplateDir() + [t + YamlExt] }
  function RequestPath(t: string, r: string): Path { RequestDir(t) + [r + YamlExt] }
  function ResponsePath(r: string, id: string): Path { ResponseDir(r) + [id + YamlExt] }

  /** The sentinel errors of the store, each with the path or identifier it concerns. */
  datatype StoreError =
    | FailedToConvertRequest
    | FailedToConvertResponse
    | FailedToRecord(path: Path)
    | FailedToStatPath(path: Path)
    | PathIsNotDirectory(path: Path)
    | FailedToReadDirectory(path: Path)
    | FailedToGetRequest(requestHash: string)
    | FailedToGetResponse(responseID: string)
    | FailedToGetTemplate(templateHash: string)

  /** One listed artifact; identifiers the listing does not know are "". */
  datatype FileInfo = FileInfo(
    responseID: string,
    requestHash: string,
    templateHash: string,
    filePath: Path,
    modTime: int)

  /** The content hash and the YAML codecs the store is parameterised by. */
  datatype Codec = Codec(
    md5: Utils.Md5,
    requests: Utils.Yaml<RequestData>,
    responses: Utils.Yaml<ResponseObject>)

  /** The text stored for a value: its YAML, or nothing when marshalling fails. */
  function YamlOrEmpty<T>(yaml: Utils.Yaml<T>, v: T): (s: string)
    ensures yaml.marshal(v).Some? ==> s == yaml.marshal(v).value
    ensures yaml.marshal(v).None? ==> s == ""
  {
    match Utils.ConvertToYAML(yaml, v)
    case Ok(text) => text
    case Err(_) => ""
  }

  // ---------------------------------------------------------------------------
  // Response IDs

  const CounterModulus := 10000
  const ResponseIDLength := 24

  /** generateResponseID: the stamp of `now`, "_", and the counter modulo 10000 in four
      digits. */
  function ResponseID(now: Clock.Moment, count: nat): (id: string)
    requires Clock.Valid(now)
    ensures |id| == ResponseIDLength
  {
    assert Pow10(4) == CounterModulus;
    FixedDigits(count % CounterModulus, 4);
    Clock.FormatStamp(now) + "_" + Fixed(count % CounterModulus, 4)
  }

  /** An ID's first 19 characters parse back to its time, and its last four digits read
      back to the counter modulo 10000. */
  lemma ResponseIDParts(now: Clock.Moment, count: nat)
    requires Clock.Valid(now)
    ensures var id := ResponseID(now, count);
      && Clock.ParseStamp(id[..Clock.StampLength]) == Some(now)
      && id[Clock.StampLength] == '_'
      && AllDigits(id[Clock.StampLength + 1..])
      && DigitsValue(id[Clock.StampLength + 1..]) == count % CounterModulus
  {
    assert Pow10(4) == CounterModulus;
    FixedDigits(count % CounterModulus, 4);
    var id := ResponseID(now, count);
    assert id[..Clock.StampLength] == Clock.FormatStamp(now);
    assert id[Clock.StampLength + 1..] == Fixed(count % CounterModulus, 4);
    Clock.ParseFormat(now);
  }

  /** Two IDs are equal exactly when they were made in the same second from counter values
      that agree modulo 10000: successive calls within one second get distinct IDs. */
  lemma ResponseIDDistinct(now1: Clock.Moment, c1: nat, now2: Clock.Moment, c2: nat)
    requires Clock.Valid(now1) && Clock.Valid(now2)
    ensures ResponseID(now1, c1) == ResponseID(now2, c2) <==>
      now1 == now2 && c1 % CounterModulus == c2 % CounterModulus
  {
    ResponseIDParts(now1, c1);
    ResponseIDParts(now2, c2);
  }

  // ---------------------------------------------------------------------------
  // Write path

  /** recordTemplate / recordRequest / recordResponse: ensure the directory, then write
      the file; a failure of either step is reported with the path that failed. */
  function RecordArtifact(fs: FS, dir: Path, file: Path, data: string, mtime: int): (FS, Option<StoreError>) {
    match Utils.EnsureDir(fs, dir, mtime)
    case Err(_) => (fs, Some(FailedToRecord(dir)))
    case Ok(fs1) =>
      match WriteFile(fs1, file, data, mtime)
      case Err(_) => (fs1, Some(FailedToRecord(file)))
      case Ok(fs2) => (fs2, None)
  }

  function FirstError(a: Option<StoreError>, b: Option<StoreError>): Option<StoreError> {
    if a.Some? then a else b
  }

  /** What the three writes of Record leave behind: the file system, the first error in
      template, request, response order, and whether the response directory was ready (the
      point at which the response ID is generated and stored). */
  datatype Outcome = Outcome(fs: FS, err: Option<StoreError>, idAssigned: bool)

  function RecordWrites(fs: FS, t: string, tYaml: string, r: string, rYaml: string,
                        sYaml: string, id: string, mtime: int): Outcome
  {
    var (fs1, e1) := RecordArtifact(fs, TemplateDir(), TemplatePath(t), tYaml, mtime);
    var (fs2, e2) := RecordArtifact(fs1, RequestDir(t), RequestPath(t, r), rYaml, mtime);
    var (fs3, e3) := RecordArtifact(fs2, ResponseDir(r), ResponsePath(r, id), sYaml, mtime);
    Outcome(fs3, FirstError(e1, FirstError(e2, e3)), Utils.EnsureDir(fs2, ResponseDir(r), mtime).Ok?)
  }

  /** A file system node at `p` holding `data`, reachable with Stat. */
  predicate Holds(fs: FS, p: Path, data: string, mtime: int) {
    Stat(fs, p).Ok? && Stat(fs, p).value.File? && Stat(fs, p).value.data == data
    && Stat(fs, p).value.mtime == mtime
  }

  /** No node at `p`, or one whose owner may read it. */
  predicate Readable(fs: FS, p: Path) {
    p !in fs || fs[p].perm.read
  }

  /** One artifact write keeps the tree well formed, keeps every node other than the file
      as it was, and adds only the file and directories on the way to it. */
  lemma ArtifactFrame(fs: FS, dir: Path, name: string, data: string, mtime: int)
    requires WF(fs)
    ensures var (r, _) := RecordArtifact(fs, dir, dir + [name], data, mtime);
      && WF(r)
      && (forall q :: q in fs && q != dir + [name] ==> q in r && r[q] == fs[q])
      && (forall q :: q in r && q !in fs ==> q == dir + [name] || (|q| <= |dir| && q == dir[..|q|]))
  {
    var file := dir + [name];
    if Utils.EnsureDir(fs, dir, mtime).Ok? {
      var fs1 := Utils.EnsureDir(fs, dir, mtime).value;
      Utils.EnsureDirOk(fs, dir, mtime);
      MkdirAllAdds(fs, dir, mtime);
      if WriteFile(fs1, file, data, mtime).Ok? {
        WriteFileOk(fs1, file, data, mtime);
      }
    }
  }

  /** One artifact write: on success the directory is reachable and the file holds the
      data (and can be read back when it was readable before); an error names the
      directory or the file. */
  lemma ArtifactWritten(fs: FS, dir: Path, name: string, data: string, mtime: int)
    requires WF(fs)
    ensures var (r, err) := RecordArtifact(fs, dir, dir + [name], data, mtime);
      && (err.None? ==> Holds(r, dir + [name], data, mtime))
      && (err.None? ==> Stat(r, dir).Ok? && Stat(r, dir).value.Dir?)
      && (err.None? && Readable(fs, dir + [name]) ==> ReadFile(r, dir + [name]) == Ok(data))
      && (err.Some? ==> err == Some(FailedToRecord(dir)) || err == Some(FailedToRecord(dir + [name])))
  {
    var file := dir + [name];
    if Utils.EnsureDir(fs, dir, mtime).Ok? {
      var fs1 := Utils.EnsureDir(fs, dir, mtime).value;
      Utils.EnsureDirOk(fs, dir, mtime);
      MkdirAllAdds(fs, dir, mtime);
      assert file in fs1 ==> file in fs;
      if WriteFile(fs1, file, data, mtime).Ok? {
        WriteFileOk(fs1, file, data, mtime);
        var r := WriteFile(fs1, file, data, mtime).value;
        assert Readable(fs, file) ==> Readable(fs1, file);
        assert Stat(r, file) == Ok(r[file]);
        WriteFileElsewhere(fs1, file, data, mtime, dir);
      }
    }
  }

  /** An artifact write leaves what Stat and ReadFile see at `p` alone when `p` was
      reachable and does not lie at or below the file written. */
  lemma ArtifactPreserves(fs: FS, dir: Path, file: Path, data: string, mtime: int, p: Path)
    requires WF(fs) && Stat(fs, p).Ok?
    requires !(|file| <= |p| && p[..|file|] == file)
    ensures var (r, _) := RecordArtifact(fs, dir, file, data, mtime);
      Stat(r, p) == Stat(fs, p) && ReadFile(r, p) == ReadFile(fs, p)
  {
    if Utils.EnsureDir(fs, dir, mtime).Ok? {
      var fs1 := Utils.EnsureDir(fs, dir, mtime).value;
      Utils.EnsureDirOk(fs, dir, mtime);
      StatExtends(fs, fs1, p);
      if WriteFile(fs1, file, data, mtime).Ok? {
        WriteFileElsewhere(fs1, file, data, mtime, p);
      }
    }
  }

  /** Record's three writes keep the tree well formed and touch nothing but the three
      files and the directories on the way to them. */
  lemma RecordWritesFrame(fs: FS, t: string, tYaml: string, r: string, rYaml: string,
                          sYaml: string, id: string, mtime: int)
    requires WF(fs)
    ensures var fs3 := RecordWrites(fs, t, tYaml, r, rYaml, sYaml, id, mtime).fs;
      && WF(fs3)
      && (forall q :: q in fs && q != TemplatePath(t) && q != RequestPath(t, r) && q != ResponsePath(r, id)
            ==> q in fs3 && fs3[q] == fs[q])
  {
    var (fs1, e1) := RecordArtifact(fs, TemplateDir(), TemplatePath(t), tYaml, mtime);
    var (fs2, e2) := RecordArtifact(fs1, RequestDir(t), RequestPath(t, r), rYaml, mtime);
    ArtifactFrame(fs, TemplateDir(), t + YamlExt, tYaml, mtime);
    ArtifactFrame(fs1, RequestDir(t), r + YamlExt, rYaml, mtime);
    ArtifactFrame(fs2, ResponseDir(r), id + YamlExt, sYaml, mtime);
  }

  /** Record reports the first failure in template, request, response order, always as
      FailedToRecord of the directory or file that failed, and succeeds only when all
      three writes did. */
  lemma RecordWritesError(fs: FS, t: string, tYaml: string, r: string, rYaml: string,
                          sYaml: string, id: string, mtime: int)
    requires WF(fs)
    ensures
      var (fs1, e1) := RecordArtifact(fs, TemplateDir(), TemplatePath(t), tYaml, mtime);
      var (fs2, e2) := RecordArtifact(fs1, RequestDir(t), RequestPath(t, r), rYaml, mtime);
      var (fs3, e3) := RecordArtifact(fs2, ResponseDir(r), ResponsePath(r, id), sYaml, mtime);
      var o := RecordWrites(fs, t, tYaml, r, rYaml, sYaml, id, mtime);
      && (o.err.None? <==> e1.None? && e2.None? && e3.None?)
      && (e1.Some? ==> o.err == e1)
      && (e1.None? && e2.Some? ==> o.err == e2)
      && (o.err.Some? ==> o.err.value in {FailedToRecord(TemplateDir()), FailedToRecord(TemplatePath(t)),
                                         FailedToRecord(RequestDir(t)), FailedToRecord(RequestPath(t, r)),
                                         FailedToRecord(ResponseDir(r)), FailedToRecord(ResponsePath(r, id))})
  {
    var (fs1, e1) := RecordArtifact(fs, TemplateDir(), TemplatePath(t), tYaml, mtime);
    var (fs2, e2) := RecordArtifact(fs1, RequestDir(t), RequestPath(t, r), rYaml, mtime);
    ArtifactFrame(fs, TemplateDir(), t + YamlExt, tYaml, mtime);
    ArtifactFrame(fs1, RequestDir(t), r + YamlExt, rYaml, mtime);
    ArtifactWritten(fs, TemplateDir(), t + YamlExt, tYaml, mtime);
    ArtifactWritten(fs1, RequestDir(t), r + YamlExt, rYaml, mtime);
    ArtifactWritten(fs2, ResponseDir(r), id + YamlExt, sYaml, mtime);
  }

  /** A file that holds its data stays that way through a later artifact write elsewhere. */
  lemma HoldsThrough(fs: FS, dir: Path, name: string, data: string, mtime: int,
                     p: Path, pData: string, pTime: int)
    requires WF(fs) && Holds(fs, p, pData, pTime)
    requires dir != []
    requires |p| < |dir| + 1 || p[0] != dir[0]
    ensures var (r, _) := RecordArtifact(fs, dir, dir + [name], data, mtime);
      WF(r) && Holds(r, p, pData, pTime)
  {
    var file := dir + [name];
    if |file| <= |p| {
      assert file[0] == dir[0] && p[..|file|][0] == p[0];
    }
    assert !(|file| <= |p| && p[..|file|] == file);
    ArtifactFrame(fs, dir, name, data, mtime);
    ArtifactPreserves(fs, dir, file, data, mtime, p);
  }

  /** Writes that succeeded are not undone: each file whose write succeeded holds exactly
      its YAML at the end, whatever happened to the other two. */
  lemma RecordWritesPersist(fs: FS, t: string, tYaml: string, r: string, rYaml: string,
                            sYaml: string, id: string, mtime: int)
    requires WF(fs)
    ensures
      var (fs1, e1) := RecordArtifact(fs, TemplateDir(), TemplatePath(t), tYaml, mtime);
      var (fs2, e2) := RecordArtifact(fs1, RequestDir(t), RequestPath(t, r), rYaml, mtime);
      var (fs3, e3) := RecordArtifact(fs2, ResponseDir(r), ResponsePath(r, id), sYaml, mtime);
      && (e1.None? ==> Holds(fs3, TemplatePath(t), tYaml, mtime))
      && (e2.None? ==> Holds(fs3, RequestPath(t, r), rYaml, mtime))
      && (e3.None? ==> Holds(fs3, ResponsePath(r, id), sYaml, mtime))
  {
    var (fs1, e1) := RecordArtifact(fs, TemplateDir(), TemplatePath(t), tYaml, mtime);
    var (fs2, e2) := RecordArtifact(fs1, RequestDir(t), RequestPath(t, r), rYaml, mtime);
    ArtifactFrame(fs, TemplateDir(), t + YamlExt, tYaml, mtime);
    ArtifactFrame(fs1, RequestDir(t), r + YamlExt, rYaml, mtime);
    ArtifactWritten(fs, TemplateDir(), t + YamlExt, tYaml, mtime);
    ArtifactWritten(fs1, RequestDir(t), r + YamlExt, rYaml, mtime);
    ArtifactWritten(fs2, ResponseDir(r), id + YamlExt, sYaml, mtime);
    assert RequestsDir != ResponsesDir && TemplatesDir != RequestsDir && TemplatesDir != ResponsesDir;
    if e1.None? {
      HoldsThrough(fs1, RequestDir(t), r + YamlExt, rYaml, mtime, TemplatePath(t), tYaml, mtime);
      HoldsThrough(fs2, ResponseDir(r), id + YamlExt, sYaml, mtime, TemplatePath(t), tYaml, mtime);
    }
    if e2.None? {
      HoldsThrough(fs2, ResponseDir(r), id + YamlExt, sYaml, mtime, RequestPath(t, r), rYaml, mtime);
    }
  }

  /** What GetTemplateByHash and GetResponse need of a successful Record: the template and
      the response file are reachable and read back as the bytes written, provided each
      was absent or readable before. */
  lemma RecordWritesReadBack(fs: FS, t: string, tYaml: string, r: string, rYaml: string,
                             sYaml: string, id: string, mtime: int)
    requires WF(fs)
    requires RecordWrites(fs, t, tYaml, r, rYaml, sYaml, id, mtime).err.None?
    ensures var fs3 := RecordWrites(fs, t, tYaml, r, rYaml, sYaml, id, mtime).fs;
      && Stat(fs3, TemplateDir()).Ok? && Stat(fs3, TemplateDir()).value.Dir?
      && (Readable(fs, TemplatePath(t)) ==> ReadFile(fs3, TemplatePath(t)) == Ok(tYaml))
      && (Readable(fs, ResponsePath(r, id)) ==> ReadFile(fs3, ResponsePath(r, id)) == Ok(sYaml))
  {
    var (fs1, e1) := RecordArtifact(fs, TemplateDir(), TemplatePath(t), tYaml, mtime);
    var (fs2, e2) := RecordArtifact(fs1, RequestDir(t), RequestPath(t, r), rYaml, mtime);
    RecordWritesError(fs, t, tYaml, r, rYaml, sYaml, id, mtime);
    ArtifactFrame(fs, TemplateDir(), t + YamlExt, tYaml, mtime);
    ArtifactFrame(fs1, RequestDir(t), r + YamlExt, rYaml, mtime);
    ArtifactWritten(fs, TemplateDir(), t + YamlExt, tYaml, mtime);
    ArtifactWritten(fs1, RequestDir(t), r + YamlExt, rYaml, mtime);
    ArtifactWritten(fs2, ResponseDir(r), id + YamlExt, sYaml, mtime);
    assert RequestsDir != ResponsesDir && TemplatesDir != ResponsesDir;
    ArtifactPreserves(fs1, RequestDir(t), RequestPath(t, r), rYaml, mtime, TemplateDir());
    ArtifactPreserves(fs2, ResponseDir(r), ResponsePath(r, id), sYaml, mtime, TemplateDir());
    if Readable(fs, TemplatePath(t)) {
      ArtifactPreserves(fs1, RequestDir(t), RequestPath(t, r), rYaml, mtime, TemplatePath(t));
      ArtifactPreserves(fs2, ResponseDir(r), ResponsePath(r, id), sYaml, mtime, TemplatePath(t));
    }
    var rp := ResponsePath(r, id);
    if Readable(fs, rp) {
      assert rp != TemplatePath(t) && rp != RequestPath(t, r);
      assert rp !in fs1 ==> rp !in fs;
      assert rp !in fs2 ==> rp !in fs1;
      assert Readable(fs2, rp);
    }
  }

  // ---------------------------------------------------------------------------
  // Direct lookups

  /** GetTemplateByHash: the templates directory must stat and be a directory; the
      template file must then stat and read. */
  function TemplateLookup(fs: FS, t: string): Result<string, StoreError> {
    match Stat(fs, TemplateDir())
    case Err(_) => Err(FailedToStatPath(TemplateDir()))
    case Ok(n) =>
      if n.File? then Err(PathIsNotDirectory(TemplateDir()))
      else if Stat(fs, TemplatePath(t)).Err? then Err(FailedToGetTemplate(t))
      else
        match Utils.ReadFile(fs, TemplatePath(t))
        case Err(_) => Err(FailedToGetTemplate(t))
        case Ok(data) => Ok(data)
  }

  /** The outcomes of GetTemplateByHash in the order they are decided, and on success the
      exact bytes of the template file. */
  lemma TemplateLookupOutcomes(fs: FS, t: string)
    ensures TemplateDir() !in fs ==> TemplateLookup(fs, t) == Err(FailedToStatPath(TemplateDir()))
    ensures Traversable(fs, TemplateDir()) && TemplateDir() in fs && fs[TemplateDir()].File? ==>
      TemplateLookup(fs, t) == Err(PathIsNotDirectory(TemplateDir()))
    ensures IsDirAt(fs, TemplateDir()) && Traversable(fs, TemplateDir()) && TemplatePath(t) !in fs ==>
      TemplateLookup(fs, t) == Err(FailedToGetTemplate(t))
    ensures TemplateLookup(fs, t).Ok? ==>
      TemplatePath(t) in fs && fs[TemplatePath(t)].File? && TemplateLookup(fs, t).value == fs[TemplatePath(t)].data
  {
  }

  /** GetResponse: the response file of the current request hash and response ID. */
  function ResponseAt(codec: Codec, fs: FS, r: string, id: string): Result<ResponseObject, StoreError> {
    match Utils.ReadYAMLFile(codec.responses, fs, ResponsePath(r, id))
    case Err(_) => Err(FailedToGetResponse(id))
    case Ok(v) => Ok(v)
  }

  /** A codec whose decoder reads back everything its encoder writes. */
  ghost predicate RoundTrips<T(!new)>(yaml: Utils.Yaml<T>) {
    forall v :: yaml.marshal(v).Some? ==> yaml.unmarshal(yaml.marshal(v).value) == Some(v)
  }

  /** After a successful Record, GetTemplateByHash yields the template bytes written. */
  lemma RecordThenGetTemplate(fs: FS, t: string, tYaml: string, r: string, rYaml: string,
                              sYaml: string, id: string, mtime: int)
    requires WF(fs) && Readable(fs, TemplatePath(t))
    requires RecordWrites(fs, t, tYaml, r, rYaml, sYaml, id, mtime).err.None?
    ensures TemplateLookup(RecordWrites(fs, t, tYaml, r, rYaml, sYaml, id, mtime).fs, t) == Ok(tYaml)
  {
    RecordWritesReadBack(fs, t, tYaml, r, rYaml, sYaml, id, mtime);
  }

  /** After a successful Record, GetResponse with the new request hash and response ID
      yields the response that was written, for a codec that reads back what it writes. */
  lemma RecordThenGetResponse(codec: Codec, fs: FS, t: string, tYaml: string, r: string, rYaml: string,
                              v: ResponseObject, id: string, mtime: int)
    requires WF(fs) && Readable(fs, ResponsePath(r, id))
    requires RoundTrips(codec.responses) && codec.responses.marshal(v).Some?
    requires RecordWrites(fs, t, tYaml, r, rYaml, codec.responses.marshal(v).value, id, mtime).err.None?
    ensures ResponseAt(codec, RecordWrites(fs, t, tYaml, r, rYaml, codec.responses.marshal(v).value, id, mtime).fs, r, id) == Ok(v)
  {
    RecordWritesReadBack(fs, t, tYaml, r, rYaml, codec.responses.marshal(v).value, id, mtime);
  }

  // ---------------------------------------------------------------------------
  // Scan-to-find-parent lookups

  /** A directory at `d` that can be stat'ed and read, with its entries; the three ways of
      failing are told apart. */
  function CheckedDir(fs: FS, d: Path): (r: Result<seq<DirEntry>, StoreError>)
    ensures r.Ok? <==> Stat(fs, d).Ok? && Stat(fs, d).value.Dir? && ReadDir(fs, d).Ok?
    ensures r.Ok? ==> r == Ok(ReadDir(fs, d).value)
  {
    match Stat(fs, d)
    case Err(_) => Err(FailedToStatPath(d))
    case Ok(n) =>
      if n.File? then Err(PathIsNotDirectory(d))
      else
        match ReadDir(fs, d)
        case Err(_) => Err(FailedToReadDirectory(d))
        case Ok(es) => Ok(es)
  }

  /** The entry is a subdirectory of `root` in which `leaf` can be stat'ed. */
  predicate IsHit(fs: FS, root: Path, e: DirEntry, leaf: string) {
    e.isDir && Stat(fs, root + [e.name, leaf]).Ok?
  }

  /** The position of the first entry that is a hit. */
  function FirstHit(fs: FS, root: Path, es: seq<DirEntry>, leaf: string): (r: Option<nat>)
    ensures r.Some? ==> r.value < |es| && IsHit(fs, root, es[r.value], leaf)
    ensures r.Some? ==> forall j :: 0 <= j < r.value ==> !IsHit(fs, root, es[j], leaf)
    ensures r.None? ==> forall j :: 0 <= j < |es| ==> !IsHit(fs, root, es[j], leaf)
    decreases |es|
  {
    if es == [] then None
    else if IsHit(fs, root, es[0], leaf) then Some(0)
    else
      match FirstHit(fs, root, es[1..], leaf)
      case None => None
      case Some(k) => Some(k + 1)
  }

  /** GetResponseByID: scan the request directories under responses/ in name order and
      load <ID>.yaml from the first one that has it. */
  function ResponseByID(codec: Codec, fs: FS, id: string): Result<ResponseObject, StoreError> {
    var root := [ResponsesDir];
    match CheckedDir(fs, root)
    case Err(e) => Err(e)
    case Ok(es) =>
      match FirstHit(fs, root, es, id + YamlExt)
      case None => Err(FailedToGetResponse(id))
      case Some(i) =>
        match Utils.ReadYAMLFile(codec.responses, fs, root + [es[i].name, id + YamlExt])
        case Err(_) => Err(FailedToGetResponse(id))
        case Ok(v) => Ok(v)
  }

  /** GetRequestByHash: scan the template directories under requests/ in name order and
      load <R>.yaml from the first one that has it. */
  function RequestByHash(codec: Codec, fs: FS, r: string): Result<RequestData, StoreError> {
    var root := [RequestsDir];
    match CheckedDir(fs, root)
    case Err(e) => Err(e)
    case Ok(es) =>
      match FirstHit(fs, root, es, r + YamlExt)
      case None => Err(FailedToGetRequest(r))
      case Some(i) =>
        match Utils.ReadYAMLFile(codec.requests, fs, root + [es[i].name, r + YamlExt])
        case Err(_) => Err(FailedToGetRequest(r))
        case Ok(v) => Ok(v)
  }

  /** Over a directory listing, the first hit is the subdirectory with the least name
      among those in which `leaf` can be stat'ed, and there is none exactly when no
      subdirectory has it. */
  lemma FirstHitByName(fs: FS, root: Path, leaf: string)
    ensures var es := Entries(fs, root); var h := FirstHit(fs, root, es, leaf);
      && (h.None? <==> forall d :: IsDirAt(fs, root + [d]) ==> Stat(fs, root + [d, leaf]).Err?)
      && (h.Some? ==>
            && IsDirAt(fs, root + [es[h.value].name]) && Stat(fs, root + [es[h.value].name, leaf]).Ok?
            && forall d :: Less(d, es[h.value].name) && IsDirAt(fs, root + [d]) ==> Stat(fs, root + [d, leaf]).Err?)
  {
    var es := Entries(fs, root);
    var h := FirstHit(fs, root, es, leaf);
    EntriesListChildren(fs, root);
    forall d | IsDirAt(fs, root + [d]) && (h.None? || Less(d, es[h.value].name))
      ensures Stat(fs, root + [d, leaf]).Err?
    {
      var j :| 0 <= j < |es| && es[j].name == d;
      if h.Some? && j >= h.value {
        if j == h.value {
          LessAsymmetric(d, d);
        } else {
          LessAsymmetric(d, es[h.value].name);
        }
      }
      assert !IsHit(fs, root, es[j], leaf);
    }
    if h.Some? {
      assert IsHit(fs, root, es[h.value], leaf);
    }
  }

  /** GetResponseByID loads the response from the request directory with the least name
      among those holding <ID>.yaml, and when none holds it, fails with FailedToGetResponse. */
  lemma ResponseByIDFirstMatch(codec: Codec, fs: FS, id: string)
    requires CheckedDir(fs, [ResponsesDir]).Ok?
    ensures (forall d :: IsDirAt(fs, ResponseDir(d)) ==> Stat(fs, ResponsePath(d, id)).Err?) ==>
      ResponseByID(codec, fs, id) == Err(FailedToGetResponse(id))
    ensures ResponseByID(codec, fs, id).Ok? ==> exists d ::
      && IsDirAt(fs, ResponseDir(d)) && Stat(fs, ResponsePath(d, id)).Ok?
      && Utils.ReadYAMLFile(codec.responses, fs, ResponsePath(d, id)) == Ok(ResponseByID(codec, fs, id).value)
      && forall d2 :: Less(d2, d) && IsDirAt(fs, ResponseDir(d2)) ==> Stat(fs, ResponsePath(d2, id)).Err?
  {
    var root := [ResponsesDir];
    FirstHitByName(fs, root, id + YamlExt);
    assert forall d :: root + [d] == ResponseDir(d) && root + [d, id + YamlExt] == ResponsePath(d, id);
    var h := FirstHit(fs, root, Entries(fs, root), id + YamlExt);
    if h.Some? {
      var d := Entries(fs, root)[h.value].name;
      assert root + [d, id + YamlExt] == ResponsePath(d, id);
    }
  }

  /** GetRequestByHash loads the request from the template directory with the least name
      among those holding <R>.yaml, and when none holds it, fails with FailedToGetRequest. */
  lemma RequestByHashFirstMatch(codec: Codec, fs: FS, r: string)
    requires CheckedDir(fs, [RequestsDir]).Ok?
    ensures (forall t :: IsDirAt(fs, RequestDir(t)) ==> Stat(fs, RequestPath(t, r)).Err?) ==>
      RequestByHash(codec, fs, r) == Err(FailedToGetRequest(r))
    ensures RequestByHash(codec, fs, r).Ok? ==> exists t ::
      && IsDirAt(fs, RequestDir(t)) && Stat(fs, RequestPath(t, r)).Ok?
      && Utils.ReadYAMLFile(codec.requests, fs, RequestPath(t, r)) == Ok(RequestByHash(codec, fs, r).value)
      && forall t2 :: Less(t2, t) && IsDirAt(fs, RequestDir(t2)) ==> Stat(fs, RequestPath(t2, r)).Err?
  {
    var root := [RequestsDir];
    FirstHitByName(fs, root, r + YamlExt);
    assert forall t :: root + [t] == RequestDir(t) && root + [t, r + YamlExt] == RequestPath(t, r);
    var h := FirstHit(fs, root, Entries(fs, root), r + YamlExt);
    if h.Some? {
      var t := Entries(fs, root)[h.value].name;
      assert root + [t, r + YamlExt] == RequestPath(t, r);
    }
  }

  // ---------------------------------------------------------------------------
  // Listings

  /** Which identifier a listed file names. */
  datatype Level = TemplateLevel | RequestLevel | ResponseLevel

  /** The FileInfo a listing builds for the file `p` named `id` + ".yaml", found in
      directory `parent`, itself found under `grand` (an unknown name is ""). */
  function MakeInfo(level: Level, id: string, parent: string, grand: string, p: Path, mtime: int): FileInfo {
    match level
    case TemplateLevel => FileInfo("", "", id, p, mtime)
    case RequestLevel => FileInfo("", id, parent, p, mtime)
    case ResponseLevel => FileInfo(id, parent, grand, p, mtime)
  }

  function IdOf(level: Level, fi: FileInfo): string {
    match level
    case TemplateLevel => fi.templateHash
    case RequestLevel => fi.requestHash
    case ResponseLevel => fi.responseID
  }

  /** The loops of the listings:
        YamlFiles        every regular ".yaml" file directly in `dir`;
        SubdirFiles      every subdirectory of `root`, read, and its ".yaml" files;
        RequestResponses every request file R.yaml of template T, and the ".yaml" files of
                         responses/R. */
  datatype Scan =
    | YamlFiles(dir: Path, level: Level, parent: string, grand: string)
    | SubdirFiles(root: Path, level: Level)
    | RequestResponses(template: string)

  function ScanRank(scan: Scan): nat {
    if scan.YamlFiles? then 0 else 1
  }

  predicate IsYamlFile(e: DirEntry) {
    !e.isDir && HasSuffix(e.name, YamlExt)
  }

  /** What one loop iteration contributes for the entry `e`. */
  function Step(fs: FS, scan: Scan, e: DirEntry): Result<seq<FileInfo>, StoreError>
    decreases ScanRank(scan), 0
  {
    match scan
    case YamlFiles(dir, level, parent, grand) =>
      if !IsYamlFile(e) then Ok([])
      else
        var fp := dir + [e.name];
        (match Stat(fs, fp)
         case Err(_) => Err(FailedToStatPath(fp))
         case Ok(n) => Ok([MakeInfo(level, TrimSuffix(e.name, YamlExt), parent, grand, fp, n.mtime)]))
    case SubdirFiles(root, level) =>
      if !e.isDir then Ok([])
      else
        var d := root + [e.name];
        (match ReadDir(fs, d)
         case Err(_) => Err(FailedToReadDirectory(d))
         case Ok(fes) => Fold(fs, YamlFiles(d, level, e.name, ""), fes))
    case RequestResponses(t) =>
      if !IsYamlFile(e) then Ok([])
      else
        var r := TrimSuffix(e.name, YamlExt);
        match CheckedDir(fs, ResponseDir(r))
        case Err(err) => Err(err)
        case Ok(fes) => Fold(fs, YamlFiles(ResponseDir(r), ResponseLevel, r, t), fes)
  }

  /** A whole loop: the entries' contributions appended in listing order; the first
      failing entry aborts it with its error. */
  function Fold(fs: FS, scan: Scan, es: seq<DirEntry>): Result<seq<FileInfo>, StoreError>
    decreases ScanRank(scan), |es|
  {
    if es == [] then Ok([])
    else
      match Fold(fs, scan, es[..|es| - 1])
      case Err(e) => Err(e)
      case Ok(acc) =>
        match Step(fs, scan, es[|es| - 1])
        case Err(e) => Err(e)
        case Ok(more) => Ok(acc + more)
  }

  /** One more entry extends a loop that has not failed. */
  lemma FoldSnoc(fs: FS, scan: Scan, es: seq<DirEntry>, i: nat)
    requires i < |es|
    ensures Fold(fs, scan, es[..i + 1]) ==
      match Fold(fs, scan, es[..i])
      case Err(e) => Err(e)
      case Ok(acc) => match Step(fs, scan, es[i]) case Err(e) => Err(e) case Ok(more) => Ok(acc + more)
  {
    assert es[..i + 1][..i] == es[..i];
  }

  /** A loop that failed on a prefix fails with the same error on the whole listing. */
  lemma {:induction false} FoldAborts(fs: FS, scan: Scan, es: seq<DirEntry>, k: nat)
    requires k <= |es| && Fold(fs, scan, es[..k]).Err?
    ensures Fold(fs, scan, es) == Fold(fs, scan, es[..k])
    decreases |es| - k
  {
    if k < |es| {
      FoldSnoc(fs, scan, es, k);
      FoldAborts(fs, scan, es, k + 1);
    } else {
      assert es[..k] == es;
    }
  }

  /** The first entry whose step fails decides the error of the whole loop. */
  lemma FirstFailure(fs: FS, scan: Scan, es: seq<DirEntry>, i: nat)
    requires i < |es| && Fold(fs, scan, es[..i]).Ok? && Step(fs, scan, es[i]).Err?
    ensures Fold(fs, scan, es) == Err(Step(fs, scan, es[i]).error)
  {
    FoldSnoc(fs, scan, es, i);
    FoldAborts(fs, scan, es, i + 1);
  }

  function ListingOf(fs: FS, d: Path, scan: Scan): Result<seq<FileInfo>, StoreError> {
    match ReadDir(fs, d)
    case Err(_) => Err(FailedToReadDirectory(d))
    case Ok(es) => Fold(fs, scan, es)
  }

  /** GetSortedTemplates before sorting. */
  function ListTemplates(fs: FS): Result<seq<FileInfo>, StoreError> {
    ListingOf(fs, TemplateDir(), YamlFiles(TemplateDir(), TemplateLevel, "", ""))
  }

  /** GetSortedRequests before sorting. */
  function ListRequests(fs: FS): Result<seq<FileInfo>, StoreError> {
    ListingOf(fs, [RequestsDir], SubdirFiles([RequestsDir], RequestLevel))
  }

  /** GetSortedResponses before sorting. */
  function ListResponses(fs: FS): Result<seq<FileInfo>, StoreError> {
    ListingOf(fs, [ResponsesDir], SubdirFiles([ResponsesDir], ResponseLevel))
  }

  /** GetSortedResponsesByRequestHash before sorting. */
  function ListResponsesByRequest(fs: FS, r: string): Result<seq<FileInfo>, StoreError> {
    match CheckedDir(fs, ResponseDir(r))
    case Err(e) => Err(e)
    case Ok(es) => Fold(fs, YamlFiles(ResponseDir(r), ResponseLevel, r, ""), es)
  }

  /** GetSortedResponsesByTemplateHash before sorting. */
  function ListResponsesByTemplate(fs: FS, t: string): Result<seq<FileInfo>, StoreError> {
    match CheckedDir(fs, RequestDir(t))
    case Err(e) => Err(e)
    case Ok(es) => Fold(fs, RequestResponses(t), es)
  }

  // ---------------------------------------------------------------------------
  // Sorting by modification time

  /** Newest first. */
  predicate NewestFirst(s: seq<FileInfo>) {
    forall i, j :: 0 <= i < j < |s| ==> s[i].modTime >= s[j].modTime
  }

  /** `x` moved in from the right past every strictly older file. */
  function InsertByTime(s: seq<FileInfo>, x: FileInfo): seq<FileInfo>
    decreases |s|
  {
    if s == [] || s[|s| - 1].modTime >= x.modTime then s + [x]
    else InsertByTime(s[..|s| - 1], x) + [s[|s| - 1]]
  }

  /** sortFilesByTimeInPlace, as the insertion sort the model uses. */
  function SortByTime(s: seq<FileInfo>): seq<FileInfo>
    decreases |s|
  {
    if s == [] then [] else InsertByTime(SortByTime(s[..|s| - 1]), s[|s| - 1])
  }

  lemma {:induction false} InsertByTimeSorted(s: seq<FileInfo>, x: FileInfo)
    requires NewestFirst(s)
    ensures NewestFirst(InsertByTime(s, x)) && multiset(InsertByTime(s, x)) == multiset(s) + multiset{x}
    decreases |s|
  {
    if s != [] && s[|s| - 1].modTime < x.modTime {
      var init, last := s[..|s| - 1], s[|s| - 1];
      assert s == init + [last];
      SortedSplit(init, last);
      InsertByTimeSorted(init, x);
      var t := InsertByTime(init, x);
      assert InsertByTime(s, x) == t + [last];
      InsertStep(init, last, x, t);
    } else {
      assert InsertByTime(s, x) == s + [x];
      assert forall k :: 0 <= k < |s| ==> s[k].modTime >= x.modTime by {
        if s != [] {
          assert forall k :: 0 <= k < |s| ==> s[k].modTime >= s[|s| - 1].modTime;
        }
      }
      SnocSorted(s, x);
    }
  }

  /** The two halves of a newest-first sequence with a last element. */
  lemma SortedSplit(init: seq<FileInfo>, last: FileInfo)
    requires NewestFirst(init + [last])
    ensures NewestFirst(init)
    ensures forall k :: 0 <= k < |init| ==> init[k].modTime >= last.modTime
  {
    assert forall k :: 0 <= k < |init| ==> (init + [last])[k] == init[k];
    assert (init + [last])[|init|] == last;
  }

  /** The recursive case of the insertion: `x` went into `init`, `last` stays at the end. */
  lemma InsertStep(init: seq<FileInfo>, last: FileInfo, x: FileInfo, t: seq<FileInfo>)
    requires NewestFirst(t) && multiset(t) == multiset(init) + multiset{x}
    requires forall k :: 0 <= k < |init| ==> init[k].modTime >= last.modTime
    requires x.modTime > last.modTime
    ensures NewestFirst(t + [last]) && multiset(t + [last]) == multiset(init + [last]) + multiset{x}
  {
    InsertedMembers(init, x, t);
    forall k | 0 <= k < |t|
      ensures t[k].modTime >= last.modTime
    {
      if t[k] != x {
        var j :| 0 <= j < |init| && init[j] == t[k];
      }
    }
    SnocSorted(t, last);
    assert multiset(t + [last]) == multiset(t) + multiset{last};
    assert multiset(init + [last]) == multiset(init) + multiset{last};
  }

  lemma InsertedMembers(init: seq<FileInfo>, x: FileInfo, t: seq<FileInfo>)
    requires multiset(t) == multiset(init) + multiset{x}
    ensures forall k :: 0 <= k < |t| ==> t[k] == x || t[k] in init
  {
    forall k | 0 <= k < |t|
      ensures t[k] == x || t[k] in init
    {
      assert t[k] in multiset(t);
    }
  }

  lemma SnocSorted(t: seq<FileInfo>, last: FileInfo)
    requires NewestFirst(t)
    requires forall k :: 0 <= k < |t| ==> t[k].modTime >= last.modTime
    ensures NewestFirst(t + [last])
  {
  }

  /** The model's sort returns newest first and is a permutation of its input. */
  lemma {:induction false} SortByTimeSorted(s: seq<FileInfo>)
    ensures NewestFirst(SortByTime(s)) && multiset(SortByTime(s)) == multiset(s)
    decreases |s|
  {
    if s != [] {
      SortByTimeSorted(s[..|s| - 1]);
      InsertByTimeSorted(SortByTime(s[..|s| - 1]), s[|s| - 1]);
      assert s == s[..|s| - 1] + [s[|s| - 1]];
    }
  }

  /** The model's sort keeps exactly the files of its input. */
  lemma SortedMembers(s: seq<FileInfo>)
    ensures NewestFirst(SortByTime(s))
    ensures forall fi :: fi in SortByTime(s) <==> fi in s
  {
    SortByTimeSorted(s);
    forall fi
      ensures fi in SortByTime(s) <==> fi in s
    {
      assert fi in SortByTime(s) <==> fi in multiset(SortByTime(s));
      assert fi in s <==> fi in multiset(s);
    }
  }

  function SortResult(r: Result<seq<FileInfo>, StoreError>): Result<seq<FileInfo>, StoreError> {
    match r
    case Err(e) => Err(e)
    case Ok(files) => Ok(SortByTime(files))
  }

  /** A sorted listing has the same files as the unsorted one, newest first. */
  lemma SortResultFacts(r: Result<seq<FileInfo>, StoreError>)
    ensures SortResult(r).Ok? <==> r.Ok?
    ensures r.Err? ==> SortResult(r) == r
    ensures r.Ok? ==> NewestFirst(SortResult(r).value) && multiset(SortResult(r).value) == multiset(r.value)
  {
    if r.Ok? {
      SortByTimeSorted(r.value);
    }
  }

  // ---------------------------------------------------------------------------
  // What the listings contain

  /** A regular file reachable with Stat, with the given modification time. */
  predicate RegularAt(fs: FS, p: Path, mtime: int) {
    Stat(fs, p).Ok? && Stat(fs, p).value.File? && Stat(fs, p).value.mtime == mtime
  }

  /** Each entry names a node of the directory and is flagged as a directory exactly when
      that node is one, as ReadDir reports them. */
  predicate FlagsAgree(fs: FS, dir: Path, es: seq<DirEntry>) {
    forall i :: 0 <= i < |es| ==> dir + [es[i].name] in fs && es[i].isDir == IsDirAt(fs, dir + [es[i].name])
  }

  lemma ReadDirFlags(fs: FS, dir: Path)
    requires ReadDir(fs, dir).Ok?
    ensures FlagsAgree(fs, dir, ReadDir(fs, dir).value)
  {
    EntriesListChildren(fs, dir);
  }

  /** `fi` describes the regular file <id>.yaml of `dir` for its level. */
  predicate FoundIn(fs: FS, dir: Path, level: Level, parent: string, grand: string, fi: FileInfo) {
    && fi == MakeInfo(level, IdOf(level, fi), parent, grand, dir + [IdOf(level, fi) + YamlExt], fi.modTime)
    && RegularAt(fs, fi.filePath, fi.modTime)
  }

  lemma FlagsAgreePrefix(fs: FS, dir: Path, es: seq<DirEntry>, k: nat)
    requires FlagsAgree(fs, dir, es) && k <= |es|
    ensures FlagsAgree(fs, dir, es[..k])
  {
    assert forall i :: 0 <= i < k ==> es[..k][i] == es[i];
  }

  /** Every file a YamlFiles loop lists is a regular ".yaml" file of the directory, named
      by its identifier, with its own modification time. */
  lemma {:induction false} YamlFilesSound(fs: FS, dir: Path, level: Level, parent: string, grand: string,
                                         es: seq<DirEntry>)
    requires FlagsAgree(fs, dir, es)
    requires Fold(fs, YamlFiles(dir, level, parent, grand), es).Ok?
    ensures forall fi :: fi in Fold(fs, YamlFiles(dir, level, parent, grand), es).value ==>
      FoundIn(fs, dir, level, parent, grand, fi)
    decreases |es|
  {
    if es != [] {
      var init, e := es[..|es| - 1], es[|es| - 1];
      FlagsAgreePrefix(fs, dir, es, |es| - 1);
      YamlFilesSound(fs, dir, level, parent, grand, init);
      if IsYamlFile(e) {
        var id := TrimSuffix(e.name, YamlExt);
        assert id + YamlExt == e.name;
        var fi := Step(fs, YamlFiles(dir, level, parent, grand), e).value[0];
        assert IdOf(level, fi) == id;
      }
    }
  }

  /** Every regular ".yaml" entry of the directory is listed. */
  lemma {:induction false} YamlFilesComplete(fs: FS, dir: Path, level: Level, parent: string, grand: string,
                                            es: seq<DirEntry>, i: nat)
    requires Fold(fs, YamlFiles(dir, level, parent, grand), es).Ok?
    requires i < |es| && IsYamlFile(es[i])
    ensures exists fi :: fi in Fold(fs, YamlFiles(dir, level, parent, grand), es).value && fi.filePath == dir + [es[i].name]
    decreases |es|
  {
    var init := es[..|es| - 1];
    if i < |es| - 1 {
      assert init[i] == es[i];
      YamlFilesComplete(fs, dir, level, parent, grand, init, i);
      var fi :| fi in Fold(fs, YamlFiles(dir, level, parent, grand), init).value && fi.filePath == dir + [es[i].name];
      assert fi in Fold(fs, YamlFiles(dir, level, parent, grand), es).value;
    } else {
      var fi := Step(fs, YamlFiles(dir, level, parent, grand), es[i]).value[0];
      assert fi in Fold(fs, YamlFiles(dir, level, parent, grand), es).value;
    }
  }

  /** The directory a request or response listing found a file in. */
  function ParentOf(level: Level, fi: FileInfo): string {
    if level == RequestLevel then fi.templateHash else fi.requestHash
  }

  /** Every file a SubdirFiles loop lists is a regular ".yaml" file of one of the
      subdirectories, which its FileInfo names as the parent. */
  lemma {:induction false} SubdirFilesSound(fs: FS, root: Path, level: Level, es: seq<DirEntry>)
    requires level != TemplateLevel
    requires FlagsAgree(fs, root, es)
    requires Fold(fs, SubdirFiles(root, level), es).Ok?
    ensures forall fi :: fi in Fold(fs, SubdirFiles(root, level), es).value ==>
      && IsDirAt(fs, root + [ParentOf(level, fi)])
      && FoundIn(fs, root + [ParentOf(level, fi)], level, ParentOf(level, fi), "", fi)
    decreases |es|
  {
    if es != [] {
      var init, e := es[..|es| - 1], es[|es| - 1];
      FlagsAgreePrefix(fs, root, es, |es| - 1);
      SubdirFilesSound(fs, root, level, init);
      if e.isDir {
        var d := root + [e.name];
        ReadDirFlags(fs, d);
        YamlFilesSound(fs, d, level, e.name, "", ReadDir(fs, d).value);
      }
    }
  }

  /** Every file a RequestResponses loop lists is a regular ".yaml" file of responses/R for
      a request file R.yaml of the template. */
  lemma {:induction false} RequestResponsesSound(fs: FS, t: string, es: seq<DirEntry>)
    requires FlagsAgree(fs, RequestDir(t), es)
    requires Fold(fs, RequestResponses(t), es).Ok?
    ensures forall fi :: fi in Fold(fs, RequestResponses(t), es).value ==>
      && RequestPath(t, fi.requestHash) in fs && fs[RequestPath(t, fi.requestHash)].File?
      && FoundIn(fs, ResponseDir(fi.requestHash), ResponseLevel, fi.requestHash, t, fi)
    decreases |es|
  {
    if es != [] {
      var init, e := es[..|es| - 1], es[|es| - 1];
      FlagsAgreePrefix(fs, RequestDir(t), es, |es| - 1);
      RequestResponsesSound(fs, t, init);
      if IsYamlFile(e) {
        var r := TrimSuffix(e.name, YamlExt);
        assert r + YamlExt == e.name;
        var d := ResponseDir(r);
        ReadDirFlags(fs, d);
        YamlFilesSound(fs, d, ResponseLevel, r, t, ReadDir(fs, d).value);
        assert RequestPath(t, r) == RequestDir(t) + [e.name];
      }
    }
  }

  /** A sorted YamlFiles loop keeps only files of the directory, newest first. */
  lemma SortedYamlSound(fs: FS, dir: Path, level: Level, parent: string, grand: string, es: seq<DirEntry>)
    requires FlagsAgree(fs, dir, es)
    requires Fold(fs, YamlFiles(dir, level, parent, grand), es).Ok?
    ensures var files := SortByTime(Fold(fs, YamlFiles(dir, level, parent, grand), es).value);
      && NewestFirst(files)
      && forall fi :: fi in files ==> FoundIn(fs, dir, level, parent, grand, fi)
  {
    var listed := Fold(fs, YamlFiles(dir, level, parent, grand), es).value;
    SortedMembers(listed);
    YamlFilesSound(fs, dir, level, parent, grand, es);
  }

  /** A sorted YamlFiles loop over a directory lists each of its regular ".yaml" files. */
  lemma SortedYamlComplete(fs: FS, dir: Path, level: Level, parent: string, grand: string, name: string)
    requires ReadDir(fs, dir).Ok?
    requires Fold(fs, YamlFiles(dir, level, parent, grand), ReadDir(fs, dir).value).Ok?
    requires HasSuffix(name, YamlExt) && dir + [name] in fs && fs[dir + [name]].File?
    ensures exists fi :: && fi in SortByTime(Fold(fs, YamlFiles(dir, level, parent, grand), ReadDir(fs, dir).value).value)
                         && fi.filePath == dir + [name]
  {
    var es := ReadDir(fs, dir).value;
    var listed := Fold(fs, YamlFiles(dir, level, parent, grand), es).value;
    EntriesListChildren(fs, dir);
    var i :| 0 <= i < |es| && es[i].name == name;
    assert IsYamlFile(es[i]);
    YamlFilesComplete(fs, dir, level, parent, grand, es, i);
    var fi :| fi in listed && fi.filePath == dir + [name];
    SortedMembers(listed);
  }

  /** GetSortedTemplates lists, newest first, exactly the regular files templates/<T>.yaml,
      each with its hash and modification time. */
  lemma ListTemplatesExact(fs: FS, name: string)
    requires SortResult(ListTemplates(fs)).Ok?
    ensures var files := SortResult(ListTemplates(fs)).value;
      && NewestFirst(files)
      && (forall fi :: fi in files ==>
            fi == FileInfo("", "", fi.templateHash, TemplatePath(fi.templateHash), fi.modTime)
            && RegularAt(fs, fi.filePath, fi.modTime))
      && (HasSuffix(name, YamlExt) && TemplateDir() + [name] in fs && fs[TemplateDir() + [name]].File? ==>
            exists fi :: fi in files && fi.filePath == TemplateDir() + [name])
  {
    var d := TemplateDir();
    var es := ReadDir(fs, d).value;
    var scan := YamlFiles(d, TemplateLevel, "", "");
    assert ListTemplates(fs) == Fold(fs, scan, es);
    ReadDirFlags(fs, d);
    SortedYamlSound(fs, d, TemplateLevel, "", "", es);
    if HasSuffix(name, YamlExt) && d + [name] in fs && fs[d + [name]].File? {
      SortedYamlComplete(fs, d, TemplateLevel, "", "", name);
    }
  }

  /** GetSortedResponsesByRequestHash lists, newest first, exactly the regular files
      responses/<R>/<ID>.yaml of the current request hash R. */
  lemma ListResponsesByRequestExact(fs: FS, r: string, name: string)
    requires SortResult(ListResponsesByRequest(fs, r)).Ok?
    ensures var files := SortResult(ListResponsesByRequest(fs, r)).value;
      && NewestFirst(files)
      && (forall fi :: fi in files ==>
            fi == FileInfo(fi.responseID, r, "", ResponsePath(r, fi.responseID), fi.modTime)
            && RegularAt(fs, fi.filePath, fi.modTime))
      && (HasSuffix(name, YamlExt) && ResponseDir(r) + [name] in fs && fs[ResponseDir(r) + [name]].File? ==>
            exists fi :: fi in files && fi.filePath == ResponseDir(r) + [name])
  {
    var d := ResponseDir(r);
    var es := ReadDir(fs, d).value;
    var scan := YamlFiles(d, ResponseLevel, r, "");
    assert ListResponsesByRequest(fs, r) == Fold(fs, scan, es);
    ReadDirFlags(fs, d);
    SortedYamlSound(fs, d, ResponseLevel, r, "", es);
    if HasSuffix(name, YamlExt) && d + [name] in fs && fs[d + [name]].File? {
      SortedYamlComplete(fs, d, ResponseLevel, r, "", name);
    }
  }

  /** GetSortedRequests lists, newest first, only regular files requests/<T>/<R>.yaml of
      template directories T, each carrying both hashes. */
  lemma ListRequestsSound(fs: FS)
    requires SortResult(ListRequests(fs)).Ok?
    ensures var files := SortResult(ListRequests(fs)).value;
      && NewestFirst(files)
      && forall fi :: fi in files ==>
           && fi == FileInfo("", fi.requestHash, fi.templateHash, RequestPath(fi.templateHash, fi.requestHash), fi.modTime)
           && IsDirAt(fs, RequestDir(fi.templateHash)) && RegularAt(fs, fi.filePath, fi.modTime)
  {
    var root := [RequestsDir];
    var es := ReadDir(fs, root).value;
    var scan := SubdirFiles(root, RequestLevel);
    assert ListRequests(fs) == Fold(fs, scan, es);
    var listed := Fold(fs, scan, es).value;
    var files := SortByTime(listed);
    SortedMembers(listed);
    ReadDirFlags(fs, root);
    SubdirFilesSound(fs, root, RequestLevel, es);
    forall fi | fi in files
      ensures fi == FileInfo("", fi.requestHash, fi.templateHash, RequestPath(fi.templateHash, fi.requestHash), fi.modTime)
      ensures IsDirAt(fs, RequestDir(fi.templateHash)) && RegularAt(fs, fi.filePath, fi.modTime)
    {
      assert fi in listed;
      assert root + [fi.templateHash] == RequestDir(fi.templateHash);
      assert FoundIn(fs, RequestDir(fi.templateHash), RequestLevel, fi.templateHash, "", fi);
    }
  }

  /** GetSortedResponses lists, newest first, only regular files responses/<R>/<ID>.yaml of
      request directories R, each carrying its request hash and ID. */
  lemma ListResponsesSound(fs: FS)
    requires SortResult(ListResponses(fs)).Ok?
    ensures var files := SortResult(ListResponses(fs)).value;
      && NewestFirst(files)
      && forall fi :: fi in files ==>
           && fi == FileInfo(fi.responseID, fi.requestHash, "", ResponsePath(fi.requestHash, fi.responseID), fi.modTime)
           && IsDirAt(fs, ResponseDir(fi.requestHash)) && RegularAt(fs, fi.filePath, fi.modTime)
  {
    var root := [ResponsesDir];
    var es := ReadDir(fs, root).value;
    var scan := SubdirFiles(root, ResponseLevel);
    assert ListResponses(fs) == Fold(fs, scan, es);
    var listed := Fold(fs, scan, es).value;
    var files := SortByTime(listed);
    SortedMembers(listed);
    ReadDirFlags(fs, root);
    SubdirFilesSound(fs, root, ResponseLevel, es);
    forall fi | fi in files
      ensures fi == FileInfo(fi.responseID, fi.requestHash, "", ResponsePath(fi.requestHash, fi.responseID), fi.modTime)
      ensures IsDirAt(fs, ResponseDir(fi.requestHash)) && RegularAt(fs, fi.filePath, fi.modTime)
    {
      assert fi in listed;
      assert root + [fi.requestHash] == ResponseDir(fi.requestHash);
      assert FoundIn(fs, ResponseDir(fi.requestHash), ResponseLevel, fi.requestHash, "", fi);
    }
  }

  /** GetSortedResponsesByTemplateHash lists, newest first, only regular files
      responses/<R>/<ID>.yaml for request files requests/<T>/<R>.yaml of the current
      template hash T. */
  lemma ListResponsesByTemplateSound(fs: FS, t: string)
    requires SortResult(ListResponsesByTemplate(fs, t)).Ok?
    ensures var files := SortResult(ListResponsesByTemplate(fs, t)).value;
      && NewestFirst(files)
      && forall fi :: fi in files ==>
           && fi == FileInfo(fi.responseID, fi.requestHash, t, ResponsePath(fi.requestHash, fi.responseID), fi.modTime)
           && RequestPath(t, fi.requestHash) in fs && fs[RequestPath(t, fi.requestHash)].File?
           && RegularAt(fs, fi.filePath, fi.modTime)
  {
    var es := ReadDir(fs, RequestDir(t)).value;
    var scan := RequestResponses(t);
    assert ListResponsesByTemplate(fs, t) == Fold(fs, scan, es);
    var listed := Fold(fs, scan, es).value;
    var files := SortByTime(listed);
    SortedMembers(listed);
    ReadDirFlags(fs, RequestDir(t));
    RequestResponsesSound(fs, t, es);
    forall fi | fi in files
      ensures fi == FileInfo(fi.responseID, fi.requestHash, t, ResponsePath(fi.requestHash, fi.responseID), fi.modTime)
      ensures RequestPath(t, fi.requestHash) in fs && fs[RequestPath(t, fi.requestHash)].File?
      ensures RegularAt(fs, fi.filePath, fi.modTime)
    {
      assert fi in listed;
      assert FoundIn(fs, ResponseDir(fi.requestHash), ResponseLevel, fi.requestHash, t, fi);
    }
  }

  /** A request file R.yaml of the template, R a plain path element, whose responses/R is
      missing fails the listing; when every earlier entry went through, the error is
      FailedToStatPath of responses/R. */
  lemma ByTemplateMissingResponses(fs: FS, t: string, i: nat)
    requires CheckedDir(fs, RequestDir(t)).Ok?
    requires var es := CheckedDir(fs, RequestDir(t)).value;
      && i < |es| && IsYamlFile(es[i])
      && PlainElement(TrimSuffix(es[i].name, YamlExt))
      && ResponseDir(TrimSuffix(es[i].name, YamlExt)) !in fs
    ensures ListResponsesByTemplate(fs, t).Err?
    ensures var es := CheckedDir(fs, RequestDir(t)).value;
      Fold(fs, RequestResponses(t), es[..i]).Ok? ==>
        ListResponsesByTemplate(fs, t) == Err(FailedToStatPath(ResponseDir(TrimSuffix(es[i].name, YamlExt))))
  {
    var es := CheckedDir(fs, RequestDir(t)).value;
    var scan := RequestResponses(t);
    if Fold(fs, scan, es[..i]).Ok? {
      FirstFailure(fs, scan, es, i);
    } else {
      FoldAborts(fs, scan, es, i);
    }
  }

  /** GetSortedResponses fails with FailedToReadDirectory when there is no responses
      directory. */
  lemma ResponsesMissingRoot(fs: FS)
    requires [ResponsesDir] !in fs
    ensures SortResult(ListResponses(fs)) == Err(FailedToReadDirectory([ResponsesDir]))
  {
  }
}
