/** The record store object: it writes a request-response cycle into the artifact tree
    and reads artifacts back, updating its fields as it goes. Every method is proved to
    compute the corresponding function of module RecordSpec. */
module Record {
  import opened Wrappers
  import opened Text
  import opened FileSys
  import Utils
  import Clock
  import opened Request
  import opened Response
  import opened RecordSpec

  /** The file system seen from the store root. */
  class Disk {
    var fs: FS

    constructor (fs: FS)
      ensures this.fs == fs
    {
      this.fs := fs;
    }
  }

  /** The process-wide execution counter that response IDs are numbered with. */
  class Counter {
    var value: nat

    constructor ()
      ensures value == 0
    {
      value := 0;
    }

    /** Add(1): the incremented value. */
    method Next() returns (n: nat)
      modifies this
      ensures value == old(value) + 1 && n == value
    {
      value := value + 1;
      n := value;
    }
  }

  /** sortFilesByTimeInPlace: an insertion sort on the array, newest first. */
  method SortFilesByTimeInPlace(a: array<FileInfo>)
    modifies a
    ensures a[..] == SortByTime(old(a[..]))
  {
    ghost var input := a[..];
    var i := 0;
    while i < a.Length
      invariant 0 <= i <= a.Length
      invariant a[..i] == SortByTime(input[..i])
      invariant a[i..] == input[i..]
    {
      ghost var before := a[..];
      InsertAt(a, i);
      SortStep(input, i, before, a[..]);
      i := i + 1;
    }
    assert input[..a.Length] == input;
  }

  /** One pass extends the sorted prefix by the next input file and keeps the rest. */
  lemma SortStep(input: seq<FileInfo>, i: nat, before: seq<FileInfo>, after: seq<FileInfo>)
    requires i < |input| == |before| == |after|
    requires before[..i] == SortByTime(input[..i]) && before[i..] == input[i..]
    requires after[..i + 1] == InsertByTime(before[..i], before[i])
    requires after[i + 1..] == before[i + 1..]
    ensures after[..i + 1] == SortByTime(input[..i + 1]) && after[i + 1..] == input[i + 1..]
  {
    assert before[i] == input[i];
    assert input[..i + 1][..i] == input[..i];
  }

  /** One pass of the insertion sort: the file at `i` moves left past every strictly
      older file before it. */
  method InsertAt(a: array<FileInfo>, i: nat)
    requires i < a.Length
    modifies a
    ensures a[..i + 1] == InsertByTime(old(a[..i]), old(a[i]))
    ensures a[i + 1..] == old(a[i + 1..])
  {
    ghost var before := a[..];
    var j := ShiftLeft(a, i);
    Shifted(before, a[..], i, j);
    InsertPosition(before[..i], before[i], j);
  }

  /** The array after ShiftLeft, as sequences: the moved file sits at `j`. */
  lemma Shifted(before: seq<FileInfo>, after: seq<FileInfo>, i: nat, j: nat)
    requires j <= i < |before| == |after|
    requires forall k :: 0 <= k < j ==> after[k] == before[k]
    requires after[j] == before[i]
    requires forall k :: j < k <= i ==> after[k] == before[k - 1]
    requires forall k :: i < k < |after| ==> after[k] == before[k]
    ensures after[..i + 1] == before[..i][..j] + [before[i]] + before[..i][j..]
    ensures after[i + 1..] == before[i + 1..]
  {
    var lhs, rhs := after[..i + 1], before[..i][..j] + [before[i]] + before[..i][j..];
    assert |lhs| == |rhs|;
    forall k | 0 <= k < |lhs|
      ensures lhs[k] == rhs[k]
    {
      if k > j {
        assert rhs[k] == before[k - 1];
      }
    }
  }

  /** The swaps of one pass; `j` is where the moved file stops: behind a file at least as
      new, with only strictly older files between it and its old place. */
  method ShiftLeft(a: array<FileInfo>, i: nat) returns (j: nat)
    requires i < a.Length
    modifies a
    ensures j <= i && (j == 0 || old(a[j - 1]).modTime >= old(a[i]).modTime)
    ensures forall k :: j <= k < i ==> old(a[k]).modTime < old(a[i]).modTime
    ensures forall k :: 0 <= k < j ==> a[k] == old(a[k])
    ensures a[j] == old(a[i])
    ensures forall k :: j < k <= i ==> a[k] == old(a[k - 1])
    ensures forall k :: i < k < a.Length ==> a[k] == old(a[k])
  {
    ghost var sorted := a[..i];
    var x := a[i];
    j := i;
    while j > 0 && a[j - 1].modTime < x.modTime
      invariant 0 <= j <= i
      invariant forall k :: 0 <= k < j ==> a[k] == sorted[k]
      invariant a[j] == x
      invariant forall k :: j < k <= i ==> a[k] == sorted[k - 1]
      invariant forall k :: i < k < a.Length ==> a[k] == old(a[k])
      invariant forall k :: j <= k < i ==> sorted[k].modTime < x.modTime
    {
      a[j - 1], a[j] := a[j], a[j - 1];
      j := j - 1;
    }
  }

  /** Where InsertByTime puts `x`: right after the last file at least as new. */
  lemma {:induction false} InsertPosition(s: seq<FileInfo>, x: FileInfo, j: nat)
    requires j <= |s| && (j == 0 || s[j - 1].modTime >= x.modTime)
    requires forall k :: j <= k < |s| ==> s[k].modTime < x.modTime
    ensures InsertByTime(s, x) == s[..j] + [x] + s[j..]
    decreases |s|
  {
    if j == |s| {
      assert s[..j] == s && s[j..] == [];
    } else {
      var init := s[..|s| - 1];
      InsertPosition(init, x, j);
      assert init[..j] == s[..j];
      assert init[j..] + [s[|s| - 1]] == s[j..];
    }
  }

  /** The files of a listing, sorted in place in an array and read back. */
  method SortFiles(files: seq<FileInfo>) returns (r: seq<FileInfo>)
    ensures r == SortByTime(files)
  {
    var a := new FileInfo[|files|](i requires 0 <= i < |files| => files[i]);
    assert a[..] == files;
    SortFilesByTimeInPlace(a);
    r := a[..];
  }

  class RecordStore {
    const disk: Disk
    const codec: Codec
    var templateYaml: string
    var requestYaml: string
    var responseYaml: string
    var request: RequestObject
    var response: ResponseObject
    var templateHash: string
    var requestHash: string
    var responseID: string

    constructor (disk: Disk, codec: Codec, templateYaml: string, request: RequestObject, response: ResponseObject)
      ensures this.disk == disk && this.codec == codec && this.templateYaml == templateYaml
      ensures this.request == request && this.response == response
      ensures requestYaml == "" && responseYaml == "" && templateHash == "" && requestHash == "" && responseID == ""
    {
      this.disk := disk;
      this.codec := codec;
      this.templateYaml := templateYaml;
      this.request := request;
      this.response := response;
      requestYaml, responseYaml := "", "";
      templateHash, requestHash, responseID := "", "", "";
    }

    /** A store on `disk` with every other field at its zero value; the nil request and
        response of a fresh Go store are empty ones here. */
    constructor Open(disk: Disk, codec: Codec)
      ensures this.disk == disk && this.codec == codec
      ensures templateYaml == "" && requestYaml == "" && responseYaml == ""
      ensures templateHash == "" && requestHash == "" && responseID == ""
      ensures fresh(request)
    {
      this.disk := disk;
      this.codec := codec;
      templateYaml, requestYaml, responseYaml := "", "", "";
      templateHash, requestHash, responseID := "", "", "";
      request := new RequestObject.FromData(RequestData("", "", "", map[], map[], "", "", "", "", "", 0.0, map[], None, ""));
      response := ResponseObject("", "", 0, map[], "", 0, ResponseTimes(0, 0, 0, 0, 0, 0, 0, 0, 0, 0, 0, 0), []);
    }

    // -------------------------------------------------------------------------
    // Write path

    /** Record: hash the template and stamp the hash on the request; encode and hash the
        request and stamp both hashes on the response; encode the response; then write
        the three artifacts, reporting the first failure. */
    method Record(now: Clock.Moment, mtime: int, counter: Counter) returns (err: Option<StoreError>)
      requires Clock.Valid(now)
      modifies this, request, disk, counter
      ensures request == old(request) && templateYaml == old(templateYaml)
      ensures templateHash == Utils.CalculateMD5Hash(codec.md5, templateYaml)
      ensures request.Data() == old(request.Data()).(templateHash := templateHash)
      ensures request.cookieJar == old(request.cookieJar) && request.timeout == old(request.timeout)
      ensures codec.requests.marshal(request.Data()).None? ==>
        && err == Some(FailedToConvertRequest)
        && requestYaml == old(requestYaml) && requestHash == old(requestHash) && response == old(response)
        && responseYaml == old(responseYaml) && responseID == old(responseID)
        && disk.fs == old(disk.fs) && counter.value == old(counter.value)
      ensures codec.requests.marshal(request.Data()).Some? ==>
        && requestYaml == codec.requests.marshal(request.Data()).value
        && requestHash == Utils.CalculateMD5Hash(codec.md5, requestYaml)
        && response == old(response).(templateHash := templateHash, requestHash := requestHash)
        && responseYaml == YamlOrEmpty(codec.responses, response)
      ensures codec.requests.marshal(request.Data()).Some? && codec.responses.marshal(response).None? ==>
        && err == Some(FailedToConvertResponse)
        && disk.fs == old(disk.fs) && responseID == old(responseID) && counter.value == old(counter.value)
      ensures codec.requests.marshal(request.Data()).Some? && codec.responses.marshal(response).Some? ==>
        var id := ResponseID(now, old(counter.value) + 1);
        var o := RecordWrites(old(disk.fs), templateHash, templateYaml, requestHash, requestYaml, responseYaml, id, mtime);
        && disk.fs == o.fs && err == o.err
        && (o.idAssigned ==> responseID == id && counter.value == old(counter.value) + 1)
        && (!o.idAssigned ==> responseID == old(responseID) && counter.value == old(counter.value))
    {
      templateHash := Utils.CalculateMD5Hash(codec.md5, templateYaml);
      request.SetTemplateHash(templateHash);
      var encRequest := Utils.ConvertToYAML(codec.requests, request.Data());
      if encRequest.Err? {
        return Some(FailedToConvertRequest);
      }
      requestYaml := encRequest.value;
      requestHash := Utils.CalculateMD5Hash(codec.md5, requestYaml);
      response := response.(templateHash := templateHash, requestHash := requestHash);
      var encResponse := Utils.ConvertToYAML(codec.responses, response);
      responseYaml := if encResponse.Ok? then encResponse.value else "";
      if encResponse.Err? {
        return Some(FailedToConvertResponse);
      }
      err := RecordAll(now, mtime, counter);
    }

    /** The three artifact writes of Record, each attempted; the first failure in
        template, request, response order is reported. */
    method RecordAll(now: Clock.Moment, mtime: int, counter: Counter) returns (err: Option<StoreError>)
      requires Clock.Valid(now)
      modifies this`responseID, disk, counter
      ensures var id := ResponseID(now, old(counter.value) + 1);
        var o := RecordWrites(old(disk.fs), templateHash, templateYaml, requestHash, requestYaml, responseYaml, id, mtime);
        && disk.fs == o.fs && err == o.err
        && (o.idAssigned ==> responseID == id && counter.value == old(counter.value) + 1)
        && (!o.idAssigned ==> responseID == old(responseID) && counter.value == old(counter.value))
    {
      var e1 := RecordTemplate(mtime);
      var e2 := RecordRequest(mtime);
      var e3 := RecordResponse(now, mtime, counter);
      err := FirstError(e1, FirstError(e2, e3));
    }

    /** recordTemplate: templates/<T>.yaml holds the template YAML. */
    method RecordTemplate(mtime: int) returns (err: Option<StoreError>)
      modifies disk
      ensures (disk.fs, err) == RecordArtifact(old(disk.fs), TemplateDir(), TemplatePath(templateHash), templateYaml, mtime)
    {
      var dir := TemplateDir();
      var made := Utils.EnsureDir(disk.fs, dir, mtime);
      if made.Err? {
        return Some(FailedToRecord(dir));
      }
      disk.fs := made.value;
      var path := TemplatePath(templateHash);
      var written := WriteFile(disk.fs, path, templateYaml, mtime);
      if written.Err? {
        return Some(FailedToRecord(path));
      }
      disk.fs := written.value;
      return None;
    }

    /** recordRequest: requests/<T>/<R>.yaml holds the request YAML. */
    method RecordRequest(mtime: int) returns (err: Option<StoreError>)
      modifies disk
      ensures (disk.fs, err) == RecordArtifact(old(disk.fs), RequestDir(templateHash), RequestPath(templateHash, requestHash), requestYaml, mtime)
    {
      var dir := RequestDir(templateHash);
      var made := Utils.EnsureDir(disk.fs, dir, mtime);
      if made.Err? {
        return Some(FailedToRecord(dir));
      }
      disk.fs := made.value;
      var path := RequestPath(templateHash, requestHash);
      var written := WriteFile(disk.fs, path, requestYaml, mtime);
      if written.Err? {
        return Some(FailedToRecord(path));
      }
      disk.fs := written.value;
      return None;
    }

    /** recordResponse: once responses/<R> exists, a fresh ID is generated and stored, and
        responses/<R>/<ID>.yaml holds the response YAML. */
    method RecordResponse(now: Clock.Moment, mtime: int, counter: Counter) returns (err: Option<StoreError>)
      requires Clock.Valid(now)
      modifies this`responseID, disk, counter
      ensures var id := ResponseID(now, old(counter.value) + 1);
        (disk.fs, err) == RecordArtifact(old(disk.fs), ResponseDir(requestHash), ResponsePath(requestHash, id), responseYaml, mtime)
      ensures Utils.EnsureDir(old(disk.fs), ResponseDir(requestHash), mtime).Ok? ==>
        responseID == ResponseID(now, old(counter.value) + 1) && counter.value == old(counter.value) + 1
      ensures Utils.EnsureDir(old(disk.fs), ResponseDir(requestHash), mtime).Err? ==>
        responseID == old(responseID) && counter.value == old(counter.value)
    {
      var dir := ResponseDir(requestHash);
      var made := Utils.EnsureDir(disk.fs, dir, mtime);
      if made.Err? {
        return Some(FailedToRecord(dir));
      }
      disk.fs := made.value;
      var n := counter.Next();
      responseID := ResponseID(now, n);
      var path := ResponsePath(requestHash, responseID);
      var written := WriteFile(disk.fs, path, responseYaml, mtime);
      if written.Err? {
        return Some(FailedToRecord(path));
      }
      disk.fs := written.value;
      return None;
    }

    // -------------------------------------------------------------------------
    // Lookups

    /** GetResponse: load responses/<R>/<ID>.yaml of the current hashes. */
    method GetResponse() returns (err: Option<StoreError>)
      modifies this`response
      ensures var r := ResponseAt(codec, disk.fs, requestHash, responseID);
        && (r.Ok? ==> err.None? && response == r.value)
        && (r.Err? ==> err == Some(r.error) && response == old(response))
    {
      var path := ResponsePath(requestHash, responseID);
      var loaded := Utils.ReadYAMLFile(codec.responses, disk.fs, path);
      if loaded.Err? {
        return Some(FailedToGetResponse(responseID));
      }
      response := loaded.value;
      return None;
    }

    /** GetResponseByID: find <ID>.yaml in the first request directory under responses/
        that has it, load it and take its hashes. */
    method GetResponseByID() returns (err: Option<StoreError>)
      modifies this`response, this`requestHash, this`templateHash, this`responseYaml
      ensures var r := ResponseByID(codec, disk.fs, responseID);
        && (r.Ok? ==>
              && err.None? && response == r.value
              && requestHash == r.value.requestHash && templateHash == r.value.templateHash
              && responseYaml == YamlOrEmpty(codec.responses, r.value))
        && (r.Err? ==>
              && err == Some(r.error) && response == old(response)
              && requestHash == old(requestHash) && templateHash == old(templateHash)
              && responseYaml == old(responseYaml))
    {
      var root := [ResponsesDir];
      var listed := CheckedDirOf(root);
      if listed.Err? {
        return Some(listed.error);
      }
      var dirs := listed.value;
      var leaf := responseID + YamlExt;
      var hit := FindHit(root, dirs, leaf);
      if hit.None? {
        return Some(FailedToGetResponse(responseID));
      }
      var path := root + [dirs[hit.value].name, leaf];
      var loaded := Utils.ReadYAMLFile(codec.responses, disk.fs, path);
      if loaded.Err? {
        return Some(FailedToGetResponse(responseID));
      }
      response := loaded.value;
      requestHash := response.requestHash;
      templateHash := response.templateHash;
      responseYaml := YamlOrEmpty(codec.responses, response);
      return None;
    }

    /** GetRequestByHash: find <R>.yaml in the first template directory under requests/
        that has it, load it into a new request object and take its template hash. */
    method GetRequestByHash() returns (err: Option<StoreError>)
      modifies this`request, this`templateHash, this`requestYaml
      ensures var r := RequestByHash(codec, disk.fs, requestHash);
        && (r.Ok? ==>
              && err.None? && fresh(request) && request.Data() == r.value
              && request.cookieJar.None? && request.timeout == 0
              && templateHash == r.value.templateHash
              && requestYaml == YamlOrEmpty(codec.requests, r.value))
        && (r.Err? ==>
              && err == Some(r.error) && request == old(request)
              && templateHash == old(templateHash) && requestYaml == old(requestYaml))
    {
      var root := [RequestsDir];
      var listed := CheckedDirOf(root);
      if listed.Err? {
        return Some(listed.error);
      }
      var dirs := listed.value;
      var leaf := requestHash + YamlExt;
      var hit := FindHit(root, dirs, leaf);
      if hit.None? {
        return Some(FailedToGetRequest(requestHash));
      }
      var path := root + [dirs[hit.value].name, leaf];
      var loaded := Utils.ReadYAMLFile(codec.requests, disk.fs, path);
      if loaded.Err? {
        return Some(FailedToGetRequest(requestHash));
      }
      request := new RequestObject.FromData(loaded.value);
      templateHash := request.templateHash;
      requestYaml := YamlOrEmpty(codec.requests, request.Data());
      return None;
    }

    /** GetTemplateByHash: read templates/<T>.yaml into the template YAML. */
    method GetTemplateByHash() returns (err: Option<StoreError>)
      modifies this`templateYaml
      ensures var r := TemplateLookup(disk.fs, templateHash);
        && (r.Ok? ==> err.None? && templateYaml == r.value)
        && (r.Err? ==> err == Some(r.error) && templateYaml == old(templateYaml))
    {
      var root := TemplateDir();
      var info := Stat(disk.fs, root);
      if info.Err? {
        return Some(FailedToStatPath(root));
      }
      if info.value.File? {
        return Some(PathIsNotDirectory(root));
      }
      var path := TemplatePath(templateHash);
      if Stat(disk.fs, path).Ok? {
        var read := Utils.ReadFile(disk.fs, path);
        if read.Err? {
          return Some(FailedToGetTemplate(templateHash));
        }
        templateYaml := read.value;
        return None;
      }
      return Some(FailedToGetTemplate(templateHash));
    }

    // -------------------------------------------------------------------------
    // Listings

    /** The inner loop of every listing: a FileInfo for each regular ".yaml" file of
        `dir`, in listing order; a file that cannot be stat'ed aborts the loop. */
    method ScanYamlFiles(dir: Path, level: Level, parent: string, grand: string, es: seq<DirEntry>)
      returns (res: Result<seq<FileInfo>, StoreError>)
      ensures res == Fold(disk.fs, YamlFiles(dir, level, parent, grand), es)
    {
      ghost var scan := YamlFiles(dir, level, parent, grand);
      var all: seq<FileInfo> := [];
      var i := 0;
      while i < |es|
        invariant 0 <= i <= |es|
        invariant Fold(disk.fs, scan, es[..i]) == Ok(all)
      {
        FoldSnoc(disk.fs, scan, es, i);
        var e := es[i];
        if !e.isDir && HasSuffix(e.name, YamlExt) {
          var filePath := dir + [e.name];
          var info := Stat(disk.fs, filePath);
          if info.Err? {
            FoldAborts(disk.fs, scan, es, i + 1);
            return Err(FailedToStatPath(filePath));
          }
          all := all + [MakeInfo(level, TrimSuffix(e.name, YamlExt), parent, grand, filePath, info.value.mtime)];
        } else {
          assert Step(disk.fs, scan, e) == Ok([]);
          assert all + [] == all;
        }
        i := i + 1;
      }
      assert es[..|es|] == es;
      return Ok(all);
    }

    /** The outer loop of GetSortedRequests and GetSortedResponses: every subdirectory of
        `root` is read and its ".yaml" files collected. */
    method ScanSubdirs(root: Path, level: Level, es: seq<DirEntry>) returns (res: Result<seq<FileInfo>, StoreError>)
      ensures res == Fold(disk.fs, SubdirFiles(root, level), es)
    {
      ghost var scan := SubdirFiles(root, level);
      var all: seq<FileInfo> := [];
      var i := 0;
      while i < |es|
        invariant 0 <= i <= |es|
        invariant Fold(disk.fs, scan, es[..i]) == Ok(all)
      {
        FoldSnoc(disk.fs, scan, es, i);
        var e := es[i];
        if e.isDir {
          var d := root + [e.name];
          var files := ReadDir(disk.fs, d);
          if files.Err? {
            FoldAborts(disk.fs, scan, es, i + 1);
            return Err(FailedToReadDirectory(d));
          }
          var part := ScanYamlFiles(d, level, e.name, "", files.value);
          if part.Err? {
            FoldAborts(disk.fs, scan, es, i + 1);
            return Err(part.error);
          }
          all := all + part.value;
        } else {
          assert Step(disk.fs, scan, e) == Ok([]);
          assert all + [] == all;
        }
        i := i + 1;
      }
      assert es[..|es|] == es;
      return Ok(all);
    }

    /** The outer loop of GetSortedResponsesByTemplateHash: for every request file R.yaml
        of the current template, responses/R must stat, be a directory and read. */
    method ScanRequestResponses(es: seq<DirEntry>) returns (res: Result<seq<FileInfo>, StoreError>)
      ensures res == Fold(disk.fs, RequestResponses(templateHash), es)
    {
      ghost var scan := RequestResponses(templateHash);
      var all: seq<FileInfo> := [];
      var i := 0;
      while i < |es|
        invariant 0 <= i <= |es|
        invariant Fold(disk.fs, scan, es[..i]) == Ok(all)
      {
        FoldSnoc(disk.fs, scan, es, i);
        var e := es[i];
        if !e.isDir && HasSuffix(e.name, YamlExt) {
          var r := TrimSuffix(e.name, YamlExt);
          var d := ResponseDir(r);
          var files := CheckedDirOf(d);
          if files.Err? {
            FoldAborts(disk.fs, scan, es, i + 1);
            return Err(files.error);
          }
          var part := ScanYamlFiles(d, ResponseLevel, r, templateHash, files.value);
          if part.Err? {
            FoldAborts(disk.fs, scan, es, i + 1);
            return Err(part.error);
          }
          all := all + part.value;
        } else {
          assert Step(disk.fs, scan, e) == Ok([]);
          assert all + [] == all;
        }
        i := i + 1;
      }
      assert es[..|es|] == es;
      return Ok(all);
    }

    /** The scan of the lookups: the first entry of `es` that is a directory holding
        `leaf`. */
    method FindHit(root: Path, es: seq<DirEntry>, leaf: string) returns (hit: Option<nat>)
      ensures hit == FirstHit(disk.fs, root, es, leaf)
    {
      var i := 0;
      while i < |es|
        invariant 0 <= i <= |es|
        invariant forall j :: 0 <= j < i ==> !IsHit(disk.fs, root, es[j], leaf)
      {
        if es[i].isDir && Stat(disk.fs, root + [es[i].name, leaf]).Ok? {
          assert IsHit(disk.fs, root, es[i], leaf);
          return Some(i);
        }
        i := i + 1;
      }
      return None;
    }

    /** Stat `d`, insist on a directory, and read it. */
    method CheckedDirOf(d: Path) returns (res: Result<seq<DirEntry>, StoreError>)
      ensures res == CheckedDir(disk.fs, d)
    {
      var info := Stat(disk.fs, d);
      if info.Err? {
        return Err(FailedToStatPath(d));
      }
      if info.value.File? {
        return Err(PathIsNotDirectory(d));
      }
      var listed := ReadDir(disk.fs, d);
      if listed.Err? {
        return Err(FailedToReadDirectory(d));
      }
      return Ok(listed.value);
    }

    /** A collected listing, sorted newest first. */
    method Sorted(all: Result<seq<FileInfo>, StoreError>) returns (res: Result<seq<FileInfo>, StoreError>)
      ensures res == SortResult(all)
    {
      if all.Err? {
        return Err(all.error);
      }
      var files := SortFiles(all.value);
      return Ok(files);
    }

    /** GetSortedTemplates: every template file, newest first. */
    method GetSortedTemplates() returns (res: Result<seq<FileInfo>, StoreError>)
      ensures res == SortResult(ListTemplates(disk.fs))
    {
      var root := TemplateDir();
      var items := ReadDir(disk.fs, root);
      if items.Err? {
        return Err(FailedToReadDirectory(root));
      }
      var all := ScanYamlFiles(root, TemplateLevel, "", "", items.value);
      res := Sorted(all);
    }

    /** GetSortedRequests: every request file of every template, newest first. */
    method GetSortedRequests() returns (res: Result<seq<FileInfo>, StoreError>)
      ensures res == SortResult(ListRequests(disk.fs))
    {
      var root := [RequestsDir];
      var dirs := ReadDir(disk.fs, root);
      if dirs.Err? {
        return Err(FailedToReadDirectory(root));
      }
      var all := ScanSubdirs(root, RequestLevel, dirs.value);
      res := Sorted(all);
    }

    /** GetSortedResponses: every response file of every request, newest first. */
    method GetSortedResponses() returns (res: Result<seq<FileInfo>, StoreError>)
      ensures res == SortResult(ListResponses(disk.fs))
    {
      var root := [ResponsesDir];
      var dirs := ReadDir(disk.fs, root);
      if dirs.Err? {
        return Err(FailedToReadDirectory(root));
      }
      var all := ScanSubdirs(root, ResponseLevel, dirs.value);
      res := Sorted(all);
    }

    /** GetSortedResponsesByRequestHash: the response files of the current request,
        newest first. */
    method GetSortedResponsesByRequestHash() returns (res: Result<seq<FileInfo>, StoreError>)
      ensures res == SortResult(ListResponsesByRequest(disk.fs, requestHash))
    {
      var d := ResponseDir(requestHash);
      var files := CheckedDirOf(d);
      if files.Err? {
        return Err(files.error);
      }
      var all := ScanYamlFiles(d, ResponseLevel, requestHash, "", files.value);
      res := Sorted(all);
    }

    /** GetSortedResponsesByTemplateHash: the response files of every request of the
        current template, newest first. */
    method GetSortedResponsesByTemplateHash() returns (res: Result<seq<FileInfo>, StoreError>)
      ensures res == SortResult(ListResponsesByTemplate(disk.fs, templateHash))
    {
      var files := CheckedDirOf(RequestDir(templateHash));
      if files.Err? {
        return Err(files.error);
      }
      var all := ScanRequestResponses(files.value);
      res := Sorted(all);
    }
  }
}
