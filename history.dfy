/** The history views: tables of recorded artifacts, newest first, and the text shown for
    one artifact. Each view opens a record store on the same disk and reads through it. */
module History {
  import opened Wrappers
  import opened Text
  import opened FileSys
  import Clock
  import opened Response
  import opened RecordSpec
  import opened Record

  datatype HistoryError =
    | StoreFailed(cause: StoreError)
    | FailedToParseTimestamp(text: string)
    | FailedToPrettify

  /** What the views take from libraries: time.Duration.String (of nanoseconds),
      time.Time.String of a modification time, and utils.Prettify of a YAML text. */
  datatype Display = Display(duration: int -> string, time: int -> string, prettify: string -> Option<string>)

  type Row = seq<string>

  const ResponseCells := 4
  const RequestCells := 3
  const TemplateCells := 2
  const ErrorStatus := 400
  const FailGlyph := " ❌"
  const PassGlyph := " ✅"

  function Min(a: nat, b: nat): nat {
    if a <= b then a else b
  }

  // ---------------------------------------------------------------------------
  // Cells

  /** The listing cut to the limit: all of it for 0, otherwise its first min(len, limit)
      entries, in the same order. */
  function Limited<T>(s: seq<T>, limit: nat): (r: seq<T>)
    ensures r <= s
    ensures |r| == if limit == 0 then |s| else Min(|s|, limit)
  {
    if limit > 0 then s[..Min(|s|, limit)] else s
  }

  /** The status cell: the code in decimal and a glyph. */
  function StatusCell(code: int): string {
    Itoa(code) + (if code >= ErrorStatus then FailGlyph else PassGlyph)
  }

  /** The status cell reads back as its code, and its glyph is the failure glyph exactly
      for codes from 400 up. */
  lemma StatusCellReadBack(code: int)
    ensures var cell := StatusCell(code);
      && |cell| > 2
      && ParseDecimal(cell[..|cell| - 2]) == code
      && (cell[|cell| - 2..] == FailGlyph <==> code >= ErrorStatus)
      && (cell[|cell| - 2..] == PassGlyph <==> code < ErrorStatus)
  {
    var cell := StatusCell(code);
    NatDecimalDigits(if code < 0 then -code else code);
    assert cell[..|cell| - 2] == Itoa(code);
    ItoaRoundTrip(code);
  }

  /** As the listings compute it, the timestamp cell starts with the slice ResponseID[:19],
      which the code takes before any check: it demands an ID of 19 characters or more
      (a shorter ID makes the slice panic). */
  function TimestampPrefixAsWritten(id: string): (prefix: string)
    requires |id| >= Clock.StampLength
    ensures |prefix| == Clock.StampLength && prefix <= id
  {
    id[..Clock.StampLength]
  }

  /** The timestamp cell: the first 19 characters of the ID parsed with the response-ID
      layout and rendered as a time; an ID that is too short or does not parse fails with
      FailedToParseTimestamp. */
  function TimestampCell(id: string): (r: Result<string, HistoryError>)
    ensures r.Ok? <==> |id| >= Clock.StampLength && Clock.ParseStamp(id[..Clock.StampLength]).Some?
    ensures r.Err? ==> r.error.FailedToParseTimestamp?
  {
    if |id| < Clock.StampLength then Err(FailedToParseTimestamp(id))
    else
      match Clock.ParseStamp(id[..Clock.StampLength])
      case None => Err(FailedToParseTimestamp(id[..Clock.StampLength]))
      case Some(t) => Ok(Clock.Render(t))
  }

  /** The timestamp cell of a generated response ID is the time it was generated at. */
  lemma TimestampOfResponseID(now: Clock.Moment, count: nat)
    requires Clock.Valid(now)
    ensures TimestampCell(ResponseID(now, count)) == Ok(Clock.Render(now))
  {
    ResponseIDParts(now, count);
  }

  /** A listing hands the timestamp cell every ".yaml" file of a response directory, so a
      file named "x.yaml" gives an ID shorter than the slice the listing code takes. */
  lemma ShortIDListed(fs: FS, r: string)
    requires SortResult(ListResponsesByRequest(fs, r)).Ok?
    requires ResponseDir(r) + ["x" + YamlExt] in fs && fs[ResponseDir(r) + ["x" + YamlExt]].File?
    ensures exists fi :: fi in SortResult(ListResponsesByRequest(fs, r)).value && |fi.responseID| < Clock.StampLength
  {
    var name := "x" + YamlExt;
    assert HasSuffix(name, YamlExt);
    ListResponsesByRequestExact(fs, r, name);
    var fi :| fi in SortResult(ListResponsesByRequest(fs, r)).value && fi.filePath == ResponseDir(r) + [name];
    assert fi.filePath[2] == fi.responseID + YamlExt;
  }

  // ---------------------------------------------------------------------------
  // Rows and tables

  /** Rows for a listing in its order; the first entry whose row fails aborts it. */
  function Collect<T>(row: T -> Result<Row, HistoryError>, xs: seq<T>): Result<seq<Row>, HistoryError>
    decreases |xs|
  {
    if xs == [] then Ok([])
    else
      match Collect(row, xs[..|xs| - 1])
      case Err(e) => Err(e)
      case Ok(acc) =>
        match row(xs[|xs| - 1])
        case Err(e) => Err(e)
        case Ok(cells) => Ok(acc + [cells])
  }

  lemma CollectSnoc<T>(row: T -> Result<Row, HistoryError>, xs: seq<T>, i: nat)
    requires i < |xs|
    ensures Collect(row, xs[..i + 1]) ==
      match Collect(row, xs[..i])
      case Err(e) => Err(e)
      case Ok(acc) => match row(xs[i]) case Err(e) => Err(e) case Ok(cells) => Ok(acc + [cells])
  {
    assert xs[..i + 1][..i] == xs[..i];
  }

  lemma {:induction false} CollectAborts<T>(row: T -> Result<Row, HistoryError>, xs: seq<T>, k: nat)
    requires k <= |xs| && Collect(row, xs[..k]).Err?
    ensures Collect(row, xs) == Collect(row, xs[..k])
    decreases |xs| - k
  {
    if k < |xs| {
      CollectSnoc(row, xs, k);
      CollectAborts(row, xs, k + 1);
    } else {
      assert xs[..k] == xs;
    }
  }

  /** No partial tables: a listing yields rows exactly when every entry does, one row per
      entry in listing order. */
  lemma {:induction false} CollectAllOrNothing<T>(row: T -> Result<Row, HistoryError>, xs: seq<T>)
    ensures Collect(row, xs).Ok? <==> forall i :: 0 <= i < |xs| ==> row(xs[i]).Ok?
    ensures Collect(row, xs).Ok? ==>
      |Collect(row, xs).value| == |xs| && forall i :: 0 <= i < |xs| ==> Collect(row, xs).value[i] == row(xs[i]).value
    decreases |xs|
  {
    if xs != [] {
      var init := xs[..|xs| - 1];
      CollectAllOrNothing(row, init);
      assert forall i :: 0 <= i < |init| ==> init[i] == xs[i];
    }
  }

  /** The first entry that fails decides the error. */
  lemma CollectFirstError<T>(row: T -> Result<Row, HistoryError>, xs: seq<T>, i: nat)
    requires i < |xs| && row(xs[i]).Err?
    requires forall j :: 0 <= j < i ==> row(xs[j]).Ok?
    ensures Collect(row, xs) == Err(row(xs[i]).error)
  {
    var init := xs[..i];
    CollectAllOrNothing(row, init);
    assert forall j :: 0 <= j < |init| ==> init[j] == xs[j];
    CollectSnoc(row, xs, i);
    CollectAborts(row, xs, i + 1);
  }

  /** A response row: the ID, the status cell, the total time and the rendered stamp; the
      response file of the entry is loaded for it. */
  function ResponseRow(codec: Codec, display: Display, fs: FS, fi: FileInfo): Result<Row, HistoryError> {
    match ResponseAt(codec, fs, fi.requestHash, fi.responseID)
    case Err(e) => Err(StoreFailed(e))
    case Ok(v) =>
      match TimestampCell(fi.responseID)
      case Err(e) => Err(e)
      case Ok(ts) => Ok([fi.responseID, StatusCell(v.statusCode), display.duration(v.timing.total), ts])
  }

  /** A request row: the request hash, the template hash and the modification time; the
      request is looked up by its hash for it. */
  function RequestRow(codec: Codec, display: Display, fs: FS, fi: FileInfo): Result<Row, HistoryError> {
    match RequestByHash(codec, fs, fi.requestHash)
    case Err(e) => Err(StoreFailed(e))
    case Ok(_) => Ok([fi.requestHash, fi.templateHash, display.time(fi.modTime)])
  }

  function ResponseRows(codec: Codec, display: Display, fs: FS, files: seq<FileInfo>): Result<seq<Row>, HistoryError> {
    Collect(fi => ResponseRow(codec, display, fs, fi), files)
  }

  function RequestRows(codec: Codec, display: Display, fs: FS, files: seq<FileInfo>): Result<seq<Row>, HistoryError> {
    Collect(fi => RequestRow(codec, display, fs, fi), files)
  }

  /** Template rows: the hash and the modification time of each entry. */
  function TemplateRows(display: Display, files: seq<FileInfo>): (rows: seq<Row>)
    ensures |rows| == |files|
    ensures forall i :: 0 <= i < |files| ==> rows[i] == [files[i].templateHash, display.time(files[i].modTime)]
    decreases |files|
  {
    if files == [] then []
    else TemplateRows(display, files[..|files| - 1]) + [[files[|files| - 1].templateHash, display.time(files[|files| - 1].modTime)]]
  }

  /** The three response tables: a listing error is passed on. */
  function ResponseTable(codec: Codec, display: Display, fs: FS, listing: Result<seq<FileInfo>, StoreError>, limit: nat): Result<seq<Row>, HistoryError> {
    match listing
    case Err(e) => Err(StoreFailed(e))
    case Ok(files) => ResponseRows(codec, display, fs, Limited(files, limit))
  }

  /** GetAllRequestsSorted: a listing error is swallowed and leaves no entries. */
  function RequestTable(codec: Codec, display: Display, fs: FS, listing: Result<seq<FileInfo>, StoreError>, limit: nat): Result<seq<Row>, HistoryError> {
    var files := if listing.Ok? then listing.value else [];
    RequestRows(codec, display, fs, Limited(files, limit))
  }

  /** GetAllTemplatesSorted: a listing error is swallowed and leaves no entries. */
  function TemplateTable(display: Display, listing: Result<seq<FileInfo>, StoreError>, limit: nat): seq<Row> {
    var files := if listing.Ok? then listing.value else [];
    TemplateRows(display, Limited(files, limit))
  }

  /** A response table has one four-cell row per entry the limit keeps, in listing order,
      each naming its entry's ID and carrying its status and stamp; it is an error exactly
      when the listing fails or some kept entry's row does. */
  lemma ResponseTableShape(codec: Codec, display: Display, fs: FS, listing: Result<seq<FileInfo>, StoreError>, limit: nat)
    ensures listing.Err? ==> ResponseTable(codec, display, fs, listing, limit) == Err(StoreFailed(listing.error))
    ensures listing.Ok? ==>
      var files := Limited(listing.value, limit);
      && (ResponseTable(codec, display, fs, listing, limit).Ok? <==>
            forall i :: 0 <= i < |files| ==> ResponseRow(codec, display, fs, files[i]).Ok?)
      && (ResponseTable(codec, display, fs, listing, limit).Ok? ==>
            var rows := ResponseTable(codec, display, fs, listing, limit).value;
            && |rows| == |files|
            && forall i :: 0 <= i < |files| ==>
                 && |rows[i]| == ResponseCells && rows[i][0] == files[i].responseID
                 && rows[i][1] == StatusCell(ResponseAt(codec, fs, files[i].requestHash, files[i].responseID).value.statusCode)
                 && rows[i][3] == TimestampCell(files[i].responseID).value)
  {
    if listing.Ok? {
      var files := Limited(listing.value, limit);
      CollectAllOrNothing(fi => ResponseRow(codec, display, fs, fi), files);
    }
  }

  /** A request table has one three-cell row per entry the limit keeps, in listing order;
      it is an error exactly when some kept entry cannot be looked up by its hash. */
  lemma RequestTableShape(codec: Codec, display: Display, fs: FS, listing: Result<seq<FileInfo>, StoreError>, limit: nat)
    ensures var files := Limited(if listing.Ok? then listing.value else [], limit);
      && (RequestTable(codec, display, fs, listing, limit).Ok? <==>
            forall i :: 0 <= i < |files| ==> RequestByHash(codec, fs, files[i].requestHash).Ok?)
      && (RequestTable(codec, display, fs, listing, limit).Ok? ==>
            var rows := RequestTable(codec, display, fs, listing, limit).value;
            && |rows| == |files|
            && forall i :: 0 <= i < |files| ==>
                 rows[i] == [files[i].requestHash, files[i].templateHash, display.time(files[i].modTime)])
  {
    var files := Limited(if listing.Ok? then listing.value else [], limit);
    CollectAllOrNothing(fi => RequestRow(codec, display, fs, fi), files);
  }

  /** A store without a requests or templates directory shows empty request and template
      tables, while one without a responses directory fails the response table. */
  lemma MissingStore(codec: Codec, display: Display, fs: FS, limit: nat)
    requires [RequestsDir] !in fs && TemplateDir() !in fs && [ResponsesDir] !in fs
    ensures RequestTable(codec, display, fs, SortResult(ListRequests(fs)), limit) == Ok([])
    ensures TemplateTable(display, SortResult(ListTemplates(fs)), limit) == []
    ensures ResponseTable(codec, display, fs, SortResult(ListResponses(fs)), limit) ==
      Err(StoreFailed(FailedToReadDirectory([ResponsesDir])))
  {
  }

  // ---------------------------------------------------------------------------
  // Show

  function ResponseText(t: string, r: string, body: string): string {
    "\nTemplate Hash: " + t + "\n" + "Request Hash: " + r + "\n" + "Response:\n\n" + body
  }

  function RequestText(t: string, body: string): string {
    "\nTemplate Hash: " + t + "\n" + "Request:\n\n" + body
  }

  function TemplateText(body: string): string {
    "\nTemplate:\n\n" + body
  }

  /** GetResponseByID of the history: the response found by ID, shown with the hashes it
      records. */
  function ShowResponse(codec: Codec, display: Display, fs: FS, id: string): Result<string, HistoryError> {
    match ResponseByID(codec, fs, id)
    case Err(e) => Err(StoreFailed(e))
    case Ok(v) =>
      match display.prettify(YamlOrEmpty(codec.responses, v))
      case None => Err(FailedToPrettify)
      case Some(body) => Ok(ResponseText(v.templateHash, v.requestHash, body))
  }

  /** GetRequestByHash of the history: the request found by hash, shown with its template
      hash. */
  function ShowRequest(codec: Codec, display: Display, fs: FS, r: string): Result<string, HistoryError> {
    match RequestByHash(codec, fs, r)
    case Err(e) => Err(StoreFailed(e))
    case Ok(v) =>
      match display.prettify(YamlOrEmpty(codec.requests, v))
      case None => Err(FailedToPrettify)
      case Some(body) => Ok(RequestText(v.templateHash, body))
  }

  /** GetTemplateByHash of the history: the template bytes, shown under a heading. */
  function ShowTemplate(display: Display, fs: FS, t: string): Result<string, HistoryError> {
    match TemplateLookup(fs, t)
    case Err(e) => Err(StoreFailed(e))
    case Ok(data) =>
      match display.prettify(data)
      case None => Err(FailedToPrettify)
      case Some(body) => Ok(TemplateText(body))
  }

  /** A line break ends the first line. */
  lemma {:induction false} SplitLine(a: string, b: string, sep: char)
    requires sep !in a
    ensures Split(a + [sep] + b, sep) == [a] + Split(b, sep)
    decreases |a|
  {
    if a == [] {
      assert a + [sep] + b == [sep] + b;
    } else {
      var s := a + [sep] + b;
      SplitLine(a[1..], b, sep);
      assert s[0] == a[0] && s[0] != sep;
      assert s[1..] == a[1..] + [sep] + b;
      assert [s[0]] + a[1..] == a;
    }
  }

  /** A shown response starts with fixed header lines: an empty line, the template hash,
      the request hash, the heading and an empty line; then come the lines of the
      prettified body. */
  lemma ResponseHeaderLines(t: string, r: string, body: string)
    requires '\n' !in t && '\n' !in r
    ensures Split(ResponseText(t, r, body), '\n') ==
      ["", "Template Hash: " + t, "Request Hash: " + r, "Response:", ""] + Split(body, '\n')
  {
    var th, rh := "Template Hash: " + t, "Request Hash: " + r;
    var s4 := "" + "\n" + body;
    var s3 := "Response:" + "\n" + s4;
    var s2 := rh + "\n" + s3;
    var s1 := th + "\n" + s2;
    var lines := Split(body, '\n');
    assert Split(s4, '\n') == [""] + lines by { SplitLine("", body, '\n'); }
    assert Split(s3, '\n') == ["Response:", ""] + lines by { SplitLine("Response:", s4, '\n'); }
    assert Split(s2, '\n') == [rh, "Response:", ""] + lines by { assert '\n' !in rh; SplitLine(rh, s3, '\n'); }
    assert Split(s1, '\n') == [th, rh, "Response:", ""] + lines by { assert '\n' !in th; SplitLine(th, s2, '\n'); }
    assert Split("" + "\n" + s1, '\n') == ["", th, rh, "Response:", ""] + lines by { SplitLine("", s1, '\n'); }
    ResponseTextNested(t, r, body);
  }

  lemma ResponseTextNested(t: string, r: string, body: string)
    ensures ResponseText(t, r, body) ==
      "" + "\n" + (("Template Hash: " + t) + "\n" + (("Request Hash: " + r) + "\n" + ("Response:" + "\n" + ("" + "\n" + body))))
  {
  }

  /** A shown request starts with an empty line, the template hash, the heading and an
      empty line; then come the lines of the prettified body. */
  lemma RequestHeaderLines(t: string, body: string)
    requires '\n' !in t
    ensures Split(RequestText(t, body), '\n') == ["", "Template Hash: " + t, "Request:", ""] + Split(body, '\n')
  {
    var th := "Template Hash: " + t;
    var s3 := "" + "\n" + body;
    var s2 := "Request:" + "\n" + s3;
    var s1 := th + "\n" + s2;
    var lines := Split(body, '\n');
    assert Split(s3, '\n') == [""] + lines by { SplitLine("", body, '\n'); }
    assert Split(s2, '\n') == ["Request:", ""] + lines by { SplitLine("Request:", s3, '\n'); }
    assert Split(s1, '\n') == [th, "Request:", ""] + lines by { assert '\n' !in th; SplitLine(th, s2, '\n'); }
    assert Split("" + "\n" + s1, '\n') == ["", th, "Request:", ""] + lines by { SplitLine("", s1, '\n'); }
    RequestTextNested(t, body);
  }

  lemma RequestTextNested(t: string, body: string)
    ensures RequestText(t, body) == "" + "\n" + (("Template Hash: " + t) + "\n" + ("Request:" + "\n" + ("" + "\n" + body)))
  {
  }

  /** A shown template starts with an empty line, the heading and an empty line; then come
      the lines of the prettified body. */
  lemma TemplateHeaderLines(body: string)
    ensures Split(TemplateText(body), '\n') == ["", "Template:", ""] + Split(body, '\n')
  {
    var s2 := "" + "\n" + body;
    var s1 := "Template:" + "\n" + s2;
    var lines := Split(body, '\n');
    assert Split(s2, '\n') == [""] + lines by { SplitLine("", body, '\n'); }
    assert Split(s1, '\n') == ["Template:", ""] + lines by { SplitLine("Template:", s2, '\n'); }
    assert Split("" + "\n" + s1, '\n') == ["", "Template:", ""] + lines by { SplitLine("", s1, '\n'); }
    TemplateTextNested(body);
  }

  lemma TemplateTextNested(body: string)
    ensures TemplateText(body) == "" + "\n" + ("Template:" + "\n" + ("" + "\n" + body))
  {
  }

  /** A response shown by ID carries the hashes recorded in the response file, not those of
      the directory it was found in; it fails exactly when the lookup or the prettifier
      does. */
  lemma ShowResponseSource(codec: Codec, display: Display, fs: FS, id: string)
    ensures ShowResponse(codec, display, fs, id).Ok? <==>
      ResponseByID(codec, fs, id).Ok? && display.prettify(YamlOrEmpty(codec.responses, ResponseByID(codec, fs, id).value)).Some?
    ensures ResponseByID(codec, fs, id).Err? ==> ShowResponse(codec, display, fs, id) == Err(StoreFailed(ResponseByID(codec, fs, id).error))
    ensures ShowResponse(codec, display, fs, id).Ok? ==>
      var v := ResponseByID(codec, fs, id).value;
      ShowResponse(codec, display, fs, id).value ==
        ResponseText(v.templateHash, v.requestHash, display.prettify(YamlOrEmpty(codec.responses, v)).value)
  {
  }

  // ---------------------------------------------------------------------------
  // The history store

  class HistoryStore {
    const disk: Disk
    const codec: Codec
    const display: Display

    constructor (disk: Disk, codec: Codec, display: Display)
      ensures this.disk == disk && this.codec == codec && this.display == display
    {
      this.disk := disk;
      this.codec := codec;
      this.display := display;
    }

    /** The loop of the response tables: for each entry, point the store at it, load the
        response and build the row. */
    method ResponseRowsOf(store: RecordStore, files: seq<FileInfo>) returns (res: Result<seq<Row>, HistoryError>)
      requires store.disk == disk && store.codec == codec
      modifies store`requestHash, store`responseID, store`response
      ensures res == ResponseRows(codec, display, disk.fs, files)
    {
      var fs := disk.fs;
      var row := fi => ResponseRow(codec, display, fs, fi);
      var data: seq<Row> := [];
      var i := 0;
      while i < |files|
        invariant 0 <= i <= |files|
        invariant Collect(row, files[..i]) == Ok(data)
      {
        CollectSnoc(row, files, i);
        store.requestHash := files[i].requestHash;
        store.responseID := files[i].responseID;
        var err := store.GetResponse();
        if err.Some? {
          CollectAborts(row, files, i + 1);
          return Err(StoreFailed(err.value));
        }
        var status := StatusCell(store.response.statusCode);
        var stamp := TimestampCell(store.responseID);
        if stamp.Err? {
          CollectAborts(row, files, i + 1);
          return Err(stamp.error);
        }
        data := data + [[store.responseID, status, display.duration(store.response.timing.total), stamp.value]];
        i := i + 1;
      }
      assert files[..|files|] == files;
      return Ok(data);
    }

    method GetSortedResponsesByTemplateHash(templateHash: string, limit: nat) returns (res: Result<seq<Row>, HistoryError>)
      ensures res == ResponseTable(codec, display, disk.fs, SortResult(ListResponsesByTemplate(disk.fs, templateHash)), limit)
    {
      var store := new RecordStore.Open(disk, codec);
      store.templateHash := templateHash;
      var responses := store.GetSortedResponsesByTemplateHash();
      if responses.Err? {
        return Err(StoreFailed(responses.error));
      }
      res := ResponseRowsOf(store, Limited(responses.value, limit));
    }

    method GetSortedResponsesByRequestHash(requestHash: string, limit: nat) returns (res: Result<seq<Row>, HistoryError>)
      ensures res == ResponseTable(codec, display, disk.fs, SortResult(ListResponsesByRequest(disk.fs, requestHash)), limit)
    {
      var store := new RecordStore.Open(disk, codec);
      store.requestHash := requestHash;
      var responses := store.GetSortedResponsesByRequestHash();
      if responses.Err? {
        return Err(StoreFailed(responses.error));
      }
      res := ResponseRowsOf(store, Limited(responses.value, limit));
    }

    method GetAllResponsesSorted(limit: nat) returns (res: Result<seq<Row>, HistoryError>)
      ensures res == ResponseTable(codec, display, disk.fs, SortResult(ListResponses(disk.fs)), limit)
    {
      var store := new RecordStore.Open(disk, codec);
      var allFiles := store.GetSortedResponses();
      if allFiles.Err? {
        return Err(StoreFailed(allFiles.error));
      }
      res := ResponseRowsOf(store, Limited(allFiles.value, limit));
    }

    method GetAllRequestsSorted(limit: nat) returns (res: Result<seq<Row>, HistoryError>)
      ensures res == RequestTable(codec, display, disk.fs, SortResult(ListRequests(disk.fs)), limit)
    {
      var store := new RecordStore.Open(disk, codec);
      var listed := store.GetSortedRequests();
      var files := Limited(if listed.Ok? then listed.value else [], limit);
      var fs := disk.fs;
      var row := fi => RequestRow(codec, display, fs, fi);
      var data: seq<Row> := [];
      var i := 0;
      while i < |files|
        invariant 0 <= i <= |files|
        invariant Collect(row, files[..i]) == Ok(data)
      {
        CollectSnoc(row, files, i);
        store.requestHash := files[i].requestHash;
        var err := store.GetRequestByHash();
        if err.Some? {
          CollectAborts(row, files, i + 1);
          return Err(StoreFailed(err.value));
        }
        data := data + [[store.requestHash, files[i].templateHash, display.time(files[i].modTime)]];
        i := i + 1;
      }
      assert files[..|files|] == files;
      return Ok(data);
    }

    /** GetAllTemplatesSorted; its error result is always nil. */
    method GetAllTemplatesSorted(limit: nat) returns (rows: seq<Row>)
      ensures rows == TemplateTable(display, SortResult(ListTemplates(disk.fs)), limit)
    {
      var store := new RecordStore.Open(disk, codec);
      var listed := store.GetSortedTemplates();
      var files := Limited(if listed.Ok? then listed.value else [], limit);
      rows := [];
      var i := 0;
      while i < |files|
        invariant 0 <= i <= |files|
        invariant rows == TemplateRows(display, files[..i])
      {
        assert files[..i + 1][..i] == files[..i];
        rows := rows + [[files[i].templateHash, display.time(files[i].modTime)]];
        i := i + 1;
      }
      assert files[..|files|] == files;
    }

    method GetResponseByID(responseID: string) returns (res: Result<string, HistoryError>)
      ensures res == ShowResponse(codec, display, disk.fs, responseID)
    {
      var store := new RecordStore.Open(disk, codec);
      store.responseID := responseID;
      var err := store.GetResponseByID();
      if err.Some? {
        return Err(StoreFailed(err.value));
      }
      var response := display.prettify(store.responseYaml);
      if response.None? {
        return Err(FailedToPrettify);
      }
      var result := "\nTemplate Hash: " + store.templateHash + "\n";
      result := result + "Request Hash: " + store.requestHash + "\n";
      result := result + "Response:\n\n";
      result := result + response.value;
      return Ok(result);
    }

    method GetRequestByHash(requestHash: string) returns (res: Result<string, HistoryError>)
      ensures res == ShowRequest(codec, display, disk.fs, requestHash)
    {
      var store := new RecordStore.Open(disk, codec);
      store.requestHash := requestHash;
      var err := store.GetRequestByHash();
      if err.Some? {
        return Err(StoreFailed(err.value));
      }
      var request := display.prettify(store.requestYaml);
      if request.None? {
        return Err(FailedToPrettify);
      }
      var result := "\nTemplate Hash: " + store.templateHash + "\n";
      result := result + "Request:\n\n";
      result := result + request.value;
      return Ok(result);
    }

    method GetTemplateByHash(templateHash: string) returns (res: Result<string, HistoryError>)
      ensures res == ShowTemplate(display, disk.fs, templateHash)
    {
      var store := new RecordStore.Open(disk, codec);
      store.templateHash := templateHash;
      var err := store.GetTemplateByHash();
      if err.Some? {
        return Err(StoreFailed(err.value));
      }
      var template := display.prettify(store.templateYaml);
      if template.None? {
        return Err(FailedToPrettify);
      }
      var result := "\nTemplate:\n\n";
      result := result + template.value;
      return Ok(result);
    }
  }
}
