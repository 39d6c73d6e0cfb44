/** Diffs between two stored artifacts of one kind: the texts are fetched through the
    record store, then written to a writer either git style (two header lines, then one
    line per non-empty diff line with a "-", "+" or " " prefix) or inline (two colored
    file names, then the pretty-printed diff). The diff algorithm, its pretty printer and
    the terminal colors are parameters. */
module Diff {
  import opened Wrappers
  import opened Text
  import opened FileSys
  import opened RecordSpec
  import opened Record

  datatype DiffError =
    | StoreFailed(cause: StoreError)
    | InvalidDiffType
    | FailedToRenderDiff

  /** The artifact kinds a diff can compare. */
  datatype Kind = ResponseKind | RequestKind | TemplateKind

  /** The diff operation of one chunk, as diffmatchpatch reports it. */
  datatype Op = Delete | Insert | Equal

  datatype Chunk = Chunk(op: Op, text: string)

  /** What the diffs take from libraries: the line-mode diff of two texts (after
      semantic cleanup), the character-mode diff as the inline view prints it (the
      cleaned-up slice it computes is discarded there) and DiffPrettyText. */
  datatype Differ = Differ(
    lineDiff: (string, string) -> seq<Chunk>,
    charDiff: (string, string) -> seq<Chunk>,
    prettyText: seq<Chunk> -> string)

  /** The ANSI escape texts used for deletions, insertions and to end a color. */
  datatype Palette = Palette(red: string, green: string, reset: string)

  // ---------------------------------------------------------------------------
  // Fetching the texts

  /** The resource names a diff accepts. */
  function KindOf(resource: string): (k: Option<Kind>)
    ensures k.Some? <==> resource == "response" || resource == "request" || resource == "template"
    ensures k == Some(ResponseKind) <==> resource == "response"
    ensures k == Some(TemplateKind) <==> resource == "template"
  {
    if resource == "response" then Some(ResponseKind)
    else if resource == "request" then Some(RequestKind)
    else if resource == "template" then Some(TemplateKind)
    else None
  }

  /** The stored YAML text of one artifact, fetched as a fresh record store would:
      a response by its ID, a request by its hash, a template by its hash. */
  function Stored(codec: Codec, fs: FS, kind: Kind, id: string): Result<string, StoreError> {
    match kind
    case ResponseKind =>
      (match ResponseByID(codec, fs, id)
       case Err(e) => Err(e)
       case Ok(v) => Ok(YamlOrEmpty(codec.responses, v)))
    case RequestKind =>
      (match RequestByHash(codec, fs, id)
       case Err(e) => Err(e)
       case Ok(v) => Ok(YamlOrEmpty(codec.requests, v)))
    case TemplateKind => TemplateLookup(fs, id)
  }

  /** getTexts: the source text, then the target text, of the named kind; the source
      is fetched first and its failure is the one reported. */
  function Texts(codec: Codec, fs: FS, source: string, target: string, resource: string)
    : Result<(string, string), DiffError>
  {
    match KindOf(resource)
    case None => Err(InvalidDiffType)
    case Some(k) =>
      match Stored(codec, fs, k, source)
      case Err(e) => Err(StoreFailed(e))
      case Ok(text1) =>
        match Stored(codec, fs, k, target)
        case Err(e) => Err(StoreFailed(e))
        case Ok(text2) => Ok((text1, text2))
  }

  /** The outcomes of getTexts: an unknown kind fails with InvalidDiffType; otherwise it
      succeeds exactly when both lookups do, with the two texts in argument order, and a
      failure carries the record-store error of the source if the source fails, else
      that of the target. */
  lemma TextsOutcomes(codec: Codec, fs: FS, source: string, target: string, resource: string)
    ensures KindOf(resource).None? <==> Texts(codec, fs, source, target, resource) == Err(InvalidDiffType)
    ensures KindOf(resource).Some? ==>
      var k := KindOf(resource).value;
      var s, t := Stored(codec, fs, k, source), Stored(codec, fs, k, target);
      && (Texts(codec, fs, source, target, resource).Ok? <==> s.Ok? && t.Ok?)
      && (s.Ok? && t.Ok? ==> Texts(codec, fs, source, target, resource).value == (s.value, t.value))
      && (s.Err? ==> Texts(codec, fs, source, target, resource) == Err(StoreFailed(s.error)))
      && (s.Ok? && t.Err? ==> Texts(codec, fs, source, target, resource) == Err(StoreFailed(t.error)))
  {
  }

  /** Exchanging source and target exchanges the texts; when both sides fail, which error
      is reported depends on the order. */
  lemma TextsSwap(codec: Codec, fs: FS, source: string, target: string, resource: string)
    requires Texts(codec, fs, source, target, resource).Ok?
    ensures Texts(codec, fs, target, source, resource).Ok?
    ensures Texts(codec, fs, target, source, resource).value.0 == Texts(codec, fs, source, target, resource).value.1
    ensures Texts(codec, fs, target, source, resource).value.1 == Texts(codec, fs, source, target, resource).value.0
  {
  }

  /** A template diff compares the exact bytes of the two template files. */
  lemma TemplateTextsAreBytes(codec: Codec, fs: FS, source: string, target: string)
    requires Texts(codec, fs, source, target, "template").Ok?
    ensures TemplatePath(source) in fs && fs[TemplatePath(source)].File?
    ensures TemplatePath(target) in fs && fs[TemplatePath(target)].File?
    ensures Texts(codec, fs, source, target, "template").value == (fs[TemplatePath(source)].data, fs[TemplatePath(target)].data)
  {
    TemplateLookupOutcomes(fs, source);
    TemplateLookupOutcomes(fs, target);
  }

  /** After a successful Record, a template diff of the recorded template with itself
      compares the template text that was written on both sides. */
  lemma RecordedTemplateDiffsWithItself(codec: Codec, fs: FS, t: string, tYaml: string, r: string, rYaml: string,
                                        sYaml: string, id: string, mtime: int)
    requires WF(fs) && Readable(fs, TemplatePath(t))
    requires RecordWrites(fs, t, tYaml, r, rYaml, sYaml, id, mtime).err.None?
    ensures Texts(codec, RecordWrites(fs, t, tYaml, r, rYaml, sYaml, id, mtime).fs, t, t, "template") == Ok((tYaml, tYaml))
  {
    RecordThenGetTemplate(fs, t, tYaml, r, rYaml, sYaml, id, mtime);
  }

  // ---------------------------------------------------------------------------
  // Writing

  /** The result of writing `plan` piece by piece, starting at call number `start`, and
      stopping at the first write that fails: what was written, how many calls were
      made, and whether all of them succeeded. */
  datatype Emitted = Emitted(written: seq<string>, calls: nat, ok: bool)

  function Emit(fails: nat -> bool, start: nat, plan: seq<string>): (r: Emitted)
    ensures r.calls == |r.written| + (if r.ok then 0 else 1)
    ensures r.ok ==> r.written == plan
    decreases |plan|
  {
    if plan == [] then Emitted([], 0, true)
    else if fails(start) then Emitted([], 1, false)
    else
      var rest := Emit(fails, start + 1, plan[1..]);
      Emitted([plan[0]] + rest.written, rest.calls + 1, rest.ok)
  }

  function ErrorOf(e: Emitted): Option<DiffError> {
    if e.ok then None else Some(FailedToRenderDiff)
  }

  /** What is written is always a prefix of the plan. */
  lemma {:induction false} EmitPrefix(fails: nat -> bool, start: nat, plan: seq<string>)
    ensures Emit(fails, start, plan).written <= plan
    decreases |plan|
  {
    if plan != [] && !fails(start) {
      EmitPrefix(fails, start + 1, plan[1..]);
      var rest := Emit(fails, start + 1, plan[1..]).written;
      assert rest == plan[1..][..|rest|];
      assert [plan[0]] + rest == plan[..|rest| + 1];
    }
  }

  /** Writing succeeds exactly when none of its calls fails. */
  lemma {:induction false} EmitAllOk(fails: nat -> bool, start: nat, plan: seq<string>)
    ensures Emit(fails, start, plan).ok <==> forall c :: start <= c < start + |plan| ==> !fails(c)
    decreases |plan|
  {
    if plan != [] {
      EmitAllOk(fails, start + 1, plan[1..]);
    }
  }

  /** When call `start + k` is the first to fail, exactly the first `k` pieces are
      written and nothing is attempted after it. */
  lemma {:induction false} EmitStopsAt(fails: nat -> bool, start: nat, plan: seq<string>, k: nat)
    requires k < |plan| && fails(start + k)
    requires forall c :: start <= c < start + k ==> !fails(c)
    ensures Emit(fails, start, plan) == Emitted(plan[..k], k + 1, false)
    decreases k
  {
    if k > 0 {
      EmitStopsAt(fails, start + 1, plan[1..], k - 1);
      assert [plan[0]] + plan[1..][..k - 1] == plan[..k];
    }
  }

  /** A single write either fails, writing nothing, or writes its piece. */
  lemma EmitOne(fails: nat -> bool, start: nat, x: string)
    ensures Emit(fails, start, [x]) == if fails(start) then Emitted([], 1, false) else Emitted([x], 1, true)
  {
    assert [x][1..] == [];
  }

  /** A plan whose first part fails writes what that part wrote, and nothing of the rest. */
  lemma {:induction false} EmitAppendFailed(fails: nat -> bool, start: nat, a: seq<string>, b: seq<string>)
    requires !Emit(fails, start, a).ok
    ensures Emit(fails, start, a + b) == Emit(fails, start, a)
    decreases |a|
  {
    if !fails(start) {
      var ab := a + b;
      assert ab[0] == a[0] && ab[1..] == a[1..] + b;
      EmitAppendFailed(fails, start + 1, a[1..], b);
    }
  }

  lemma ConsAppend<T>(a: seq<T>, w: seq<T>)
    requires a != []
    ensures [a[0]] + (a[1..] + w) == a + w
  {
    assert [a[0]] + a[1..] == a;
  }

  /** A plan whose first part succeeds goes on with the rest where the first left off,
      at call `mid`. */
  lemma {:induction false} EmitAppendOk(fails: nat -> bool, start: nat, a: seq<string>, b: seq<string>, mid: nat)
    requires mid == start + |a| && Emit(fails, start, a).ok
    ensures var eb := Emit(fails, mid, b);
      Emit(fails, start, a + b) == Emitted(a + eb.written, |a| + eb.calls, eb.ok)
    decreases |a|
  {
    var eb := Emit(fails, mid, b);
    if a == [] {
      assert a + b == b && a + eb.written == eb.written;
    } else {
      var ab := a + b;
      assert ab != [] && ab[0] == a[0] && ab[1..] == a[1..] + b;
      assert !fails(start) && Emit(fails, start + 1, a[1..]).ok;
      EmitAppendOk(fails, start + 1, a[1..], b, mid);
      var w := Emit(fails, start + 1, a[1..] + b);
      assert Emit(fails, start, ab) == Emitted([a[0]] + w.written, w.calls + 1, w.ok);
      ConsAppend(a, eb.written);
    }
  }

  /** Writing two plans one after the other: the second is attempted only when the
      first succeeded, and starts where the first left off. */
  lemma EmitAppend(fails: nat -> bool, start: nat, a: seq<string>, b: seq<string>)
    ensures !Emit(fails, start, a).ok ==> Emit(fails, start, a + b) == Emit(fails, start, a)
    ensures Emit(fails, start, a).ok ==>
      var eb := Emit(fails, start + |a|, b);
      Emit(fails, start, a + b) == Emitted(a + eb.written, |a| + eb.calls, eb.ok)
  {
    if Emit(fails, start, a).ok {
      EmitAppendOk(fails, start, a, b, start + |a|);
    } else {
      EmitAppendFailed(fails, start, a, b);
    }
  }

  /** A writer went from `start` calls and text `before` to `calls` calls and text
      `written` by writing a prefix of `plan` that ends at the first failed call, or all
      of `plan` when `ok`. */
  ghost predicate Wrote(fails: nat -> bool, start: nat, before: seq<string>, plan: seq<string>,
                        calls: int, written: seq<string>, ok: bool)
  {
    var n := calls - start - (if ok then 0 else 1);
    && 0 <= n <= |plan|
    && written == before + plan[..n]
    && (forall c :: start <= c < start + n ==> !fails(c))
    && (if ok then n == |plan| else n < |plan| && fails(start + n))
  }

  /** Such a run is exactly what Emit describes. */
  lemma WroteIsEmit(fails: nat -> bool, start: nat, before: seq<string>, plan: seq<string>,
                    calls: int, written: seq<string>, ok: bool)
    requires Wrote(fails, start, before, plan, calls, written, ok)
    ensures var e := Emit(fails, start, plan);
      written == before + e.written && calls == start + e.calls && ok == e.ok
  {
    var n := calls - start - (if ok then 0 else 1);
    if ok {
      EmitAllOk(fails, start, plan);
      assert plan[..n] == plan;
    } else {
      EmitStopsAt(fails, start, plan, n);
    }
  }

  /** Nothing written yet. */
  lemma WroteNothing(fails: nat -> bool, start: nat, before: seq<string>)
    ensures Wrote(fails, start, before, [], start, before, true)
  {
    assert before + [][..0] == before;
  }

  /** One call of Writer.Write. */
  lemma WroteOne(fails: nat -> bool, start: nat, before: seq<string>, x: string, ok: bool, written: seq<string>)
    requires ok == !fails(start) && written == if ok then before + [x] else before
    ensures Wrote(fails, start, before, [x], start + 1, written, ok)
  {
    assert [x][..1] == [x] && [x][..0] == [];
  }

  /** A run of `a` that succeeded followed by a run of `b` is a run of `a + b`. */
  lemma WroteThen(fails: nat -> bool, start: nat, before: seq<string>, a: seq<string>, mid: nat, text: seq<string>,
                  b: seq<string>, calls: int, written: seq<string>, ok: bool)
    requires Wrote(fails, start, before, a, mid, text, true)
    requires Wrote(fails, mid, text, b, calls, written, ok)
    ensures Wrote(fails, start, before, a + b, calls, written, ok)
  {
    var n := calls - mid - (if ok then 0 else 1);
    assert a[..|a|] == a;
    assert (a + b)[..|a| + n] == a + b[..n];
  }

  /** A run of `a` that failed is a run of `a + b`: nothing of `b` is attempted. */
  lemma WroteStop(fails: nat -> bool, start: nat, before: seq<string>, a: seq<string>,
                  b: seq<string>, calls: int, written: seq<string>)
    requires Wrote(fails, start, before, a, calls, written, false)
    ensures Wrote(fails, start, before, a + b, calls, written, false)
  {
    var n := calls - start - 1;
    assert (a + b)[..n] == a[..n];
  }

  /** An io.Writer that records what it accepts; `fails(n)` says whether the call made
      after `n` earlier calls returns an error, in which case nothing is written. */
  class Writer {
    var written: seq<string>
    var calls: nat
    const fails: nat -> bool

    constructor (fails: nat -> bool)
      ensures written == [] && calls == 0 && this.fails == fails
    {
      written, calls := [], 0;
      this.fails := fails;
    }

    method Write(s: string) returns (ok: bool)
      modifies this
      ensures ok == !fails(old(calls)) && calls == old(calls) + 1
      ensures written == if ok then old(written) + [s] else old(written)
    {
      ok := !fails(calls);
      if ok {
        written := written + [s];
      }
      calls := calls + 1;
    }
  }

  // ---------------------------------------------------------------------------
  // Git-style output

  /** The header naming the source, in red. */
  function SourceHeader(p: Palette, f1: string): string {
    p.red + "--- " + f1 + p.reset + "\n"
  }

  /** The header naming the target, in green, followed by an empty line. */
  function TargetHeader(p: Palette, f2: string): string {
    p.green + "+++ " + f2 + p.reset + "\n\n"
  }

  function Headers(p: Palette, f1: string, f2: string): seq<string> {
    [SourceHeader(p, f1), TargetHeader(p, f2)]
  }

  /** One diff line with the prefix and color of its operation. */
  function LineWrite(p: Palette, op: Op, line: string): string {
    match op
    case Delete => p.red + "-" + line + p.reset + "\n"
    case Insert => p.green + "+" + line + p.reset + "\n"
    case Equal => " " + line + "\n"
  }

  /** The writes for the lines of one chunk, in order, skipping empty lines. */
  function LineWrites(p: Palette, op: Op, lines: seq<string>): seq<string>
    decreases |lines|
  {
    if lines == [] then []
    else
      var last := lines[|lines| - 1];
      LineWrites(p, op, lines[..|lines| - 1]) + (if last == "" then [] else [LineWrite(p, op, last)])
  }

  /** The writes for a sequence of chunks: each chunk's text split at newlines. */
  function ChunkWrites(p: Palette, diffs: seq<Chunk>): seq<string>
    decreases |diffs|
  {
    if diffs == [] then []
    else
      var last := diffs[|diffs| - 1];
      ChunkWrites(p, diffs[..|diffs| - 1]) + LineWrites(p, last.op, Split(last.text, '\n'))
  }

  /** Everything gitStyleDiff writes, in order, when no write fails. */
  function GitWrites(p: Palette, f1: string, f2: string, diffs: seq<Chunk>): seq<string> {
    Headers(p, f1, f2) + ChunkWrites(p, diffs)
  }

  /** The non-empty lines, in order. */
  function NonEmpty(lines: seq<string>): (r: seq<string>)
    ensures forall x :: x in r ==> x != "" && x in lines
    decreases |lines|
  {
    if lines == [] then []
    else (if lines[0] == "" then [] else [lines[0]]) + NonEmpty(lines[1..])
  }

  lemma {:induction false} NonEmptyAppend(a: seq<string>, b: seq<string>)
    ensures NonEmpty(a + b) == NonEmpty(a) + NonEmpty(b)
    decreases |a|
  {
    if a == [] {
      assert a + b == b;
    } else {
      assert (a + b)[1..] == a[1..] + b;
      NonEmptyAppend(a[1..], b);
    }
  }

  /** One more line adds its write, if it has one. */
  lemma LinesNext(p: Palette, op: Op, lines: seq<string>, j: nat)
    requires j < |lines|
    ensures LineWrites(p, op, lines[..j + 1]) ==
      LineWrites(p, op, lines[..j]) + (if lines[j] == "" then [] else [LineWrite(p, op, lines[j])])
  {
    assert lines[..j + 1][..j] == lines[..j];
  }

  /** A failed write after the first `k` lines ends the writing of all of them. */
  lemma LinesStop(fails: nat -> bool, start: nat, before: seq<string>, p: Palette, op: Op,
                  lines: seq<string>, k: nat, calls: int, written: seq<string>)
    requires k <= |lines|
    requires Wrote(fails, start, before, LineWrites(p, op, lines[..k]), calls, written, false)
    ensures Wrote(fails, start, before, LineWrites(p, op, lines), calls, written, false)
  {
    assert lines == lines[..k] + lines[k..];
    LineWritesAppend(p, op, lines[..k], lines[k..]);
    WroteStop(fails, start, before, LineWrites(p, op, lines[..k]), LineWrites(p, op, lines[k..]), calls, written);
  }

  lemma {:induction false} LineWritesAppend(p: Palette, op: Op, a: seq<string>, b: seq<string>)
    ensures LineWrites(p, op, a + b) == LineWrites(p, op, a) + LineWrites(p, op, b)
    decreases |b|
  {
    if b == [] {
      assert a + b == a;
    } else {
      var init := b[..|b| - 1];
      assert (a + b)[..|a + b| - 1] == a + init;
      LineWritesAppend(p, op, a, init);
    }
  }

  lemma {:induction false} ChunkWritesAppend(p: Palette, a: seq<Chunk>, b: seq<Chunk>)
    ensures ChunkWrites(p, a + b) == ChunkWrites(p, a) + ChunkWrites(p, b)
    decreases |b|
  {
    if b == [] {
      assert a + b == a;
    } else {
      var init := b[..|b| - 1];
      assert (a + b)[..|a + b| - 1] == a + init;
      ChunkWritesAppend(p, a, init);
    }
  }

  /** A chunk writes one line per non-empty line of its text, in order, each with the
      prefix of the chunk's operation; empty lines write nothing. */
  lemma {:induction false} LineWritesEach(p: Palette, op: Op, lines: seq<string>)
    ensures |LineWrites(p, op, lines)| == |NonEmpty(lines)|
    ensures forall k :: 0 <= k < |NonEmpty(lines)| ==> LineWrites(p, op, lines)[k] == LineWrite(p, op, NonEmpty(lines)[k])
    decreases |lines|
  {
    if lines != [] {
      var init, last := lines[..|lines| - 1], lines[|lines| - 1];
      LineWritesEach(p, op, init);
      assert lines == init + [last];
      NonEmptyAppend(init, [last]);
      assert [last][1..] == [];
    }
  }

  /** The header lines come first, source before target, and everything after them is
      the chunks' lines in chunk order. */
  lemma GitWritesOrder(p: Palette, f1: string, f2: string, diffs: seq<Chunk>, i: nat)
    requires i <= |diffs|
    ensures |GitWrites(p, f1, f2, diffs)| >= 2
    ensures GitWrites(p, f1, f2, diffs)[0] == p.red + "--- " + f1 + p.reset + "\n"
    ensures GitWrites(p, f1, f2, diffs)[1] == p.green + "+++ " + f2 + p.reset + "\n\n"
    ensures GitWrites(p, f1, f2, diffs) == Headers(p, f1, f2) + ChunkWrites(p, diffs[..i]) + ChunkWrites(p, diffs[i..])
  {
    assert diffs == diffs[..i] + diffs[i..];
    ChunkWritesAppend(p, diffs[..i], diffs[i..]);
  }

  /** The lines of one chunk, each non-empty one with its prefix; a failed write
      ends the loop. */
  method WriteLines(w: Writer, p: Palette, op: Op, lines: seq<string>) returns (ok: bool)
    modifies w
    ensures Wrote(w.fails, old(w.calls), old(w.written), LineWrites(p, op, lines), w.calls, w.written, ok)
  {
    ghost var start, before := w.calls, w.written;
    WroteNothing(w.fails, start, before);
    assert lines[..0] == [];
    var j := 0;
    while j < |lines|
      invariant 0 <= j <= |lines|
      invariant Wrote(w.fails, start, before, LineWrites(p, op, lines[..j]), w.calls, w.written, true)
    {
      var line := lines[j];
      LinesNext(p, op, lines, j);
      if line != "" {
        var x := LineWrite(p, op, line);
        ghost var mid, text := w.calls, w.written;
        ok := w.Write(x);
        WroteOne(w.fails, mid, text, x, ok, w.written);
        WroteThen(w.fails, start, before, LineWrites(p, op, lines[..j]), mid, text, [x], w.calls, w.written, ok);
        if !ok {
          LinesStop(w.fails, start, before, p, op, lines, j + 1, w.calls, w.written);
          return false;
        }
      }
      j := j + 1;
    }
    assert lines[..j] == lines;
    return true;
  }

  /** The chunks in order, each split at newlines; a failed write ends the loop. */
  method WriteChunks(w: Writer, p: Palette, diffs: seq<Chunk>) returns (ok: bool)
    modifies w
    ensures Wrote(w.fails, old(w.calls), old(w.written), ChunkWrites(p, diffs), w.calls, w.written, ok)
  {
    ghost var start, before := w.calls, w.written;
    WroteNothing(w.fails, start, before);
    assert diffs[..0] == [];
    var i := 0;
    while i < |diffs|
      invariant 0 <= i <= |diffs|
      invariant Wrote(w.fails, start, before, ChunkWrites(p, diffs[..i]), w.calls, w.written, true)
    {
      var lines := Split(diffs[i].text, '\n');
      ghost var done, cur := ChunkWrites(p, diffs[..i]), LineWrites(p, diffs[i].op, lines);
      assert diffs[..i + 1][..i] == diffs[..i];
      assert ChunkWrites(p, diffs[..i + 1]) == done + cur;
      ghost var mid, text := w.calls, w.written;
      ok := WriteLines(w, p, diffs[i].op, lines);
      WroteThen(w.fails, start, before, done, mid, text, cur, w.calls, w.written, ok);
      if !ok {
        assert diffs == diffs[..i + 1] + diffs[i + 1..];
        ChunkWritesAppend(p, diffs[..i + 1], diffs[i + 1..]);
        WroteStop(w.fails, start, before, done + cur, ChunkWrites(p, diffs[i + 1..]), w.calls, w.written);
        return false;
      }
      i := i + 1;
    }
    assert diffs[..i] == diffs;
    return true;
  }

  /** gitStyleDiff: write the two headers, then each non-empty line of each chunk of the
      line diff with its prefix; the first failed write ends it with FailedToRenderDiff. */
  method WriteGitStyle(w: Writer, p: Palette, differ: Differ, text1: string, text2: string, f1: string, f2: string)
    returns (err: Option<DiffError>)
    modifies w
    ensures var e := Emit(w.fails, old(w.calls), GitWrites(p, f1, f2, differ.lineDiff(text1, text2)));
      && w.written == old(w.written) + e.written && w.calls == old(w.calls) + e.calls
      && err == ErrorOf(e)
  {
    var lines1 := Split(text1, '\n');
    var lines2 := Split(text2, '\n');
    var text1Lines := Join(lines1, '\n');
    var text2Lines := Join(lines2, '\n');
    JoinSplit(text1, '\n');
    JoinSplit(text2, '\n');
    var diffs := differ.lineDiff(text1Lines, text2Lines);
    ghost var start, before := w.calls, w.written;
    ghost var h1, h2, body := [SourceHeader(p, f1)], [TargetHeader(p, f2)], ChunkWrites(p, diffs);
    assert GitWrites(p, f1, f2, diffs) == h1 + (h2 + body);
    var ok := w.Write(SourceHeader(p, f1));
    WroteOne(w.fails, start, before, SourceHeader(p, f1), ok, w.written);
    if !ok {
      WroteStop(w.fails, start, before, h1, h2 + body, w.calls, w.written);
      WroteIsEmit(w.fails, start, before, GitWrites(p, f1, f2, diffs), w.calls, w.written, ok);
      return Some(FailedToRenderDiff);
    }
    ghost var mid, text := w.calls, w.written;
    ok := w.Write(TargetHeader(p, f2));
    WroteOne(w.fails, mid, text, TargetHeader(p, f2), ok, w.written);
    if !ok {
      WroteStop(w.fails, mid, text, h2, body, w.calls, w.written);
      WroteThen(w.fails, start, before, h1, mid, text, h2 + body, w.calls, w.written, ok);
      WroteIsEmit(w.fails, start, before, GitWrites(p, f1, f2, diffs), w.calls, w.written, ok);
      return Some(FailedToRenderDiff);
    }
    ghost var mid2, text2 := w.calls, w.written;
    ok := WriteChunks(w, p, diffs);
    WroteThen(w.fails, mid, text, h2, mid2, text2, body, w.calls, w.written, ok);
    WroteThen(w.fails, start, before, h1, mid, text, h2 + body, w.calls, w.written, ok);
    WroteIsEmit(w.fails, start, before, GitWrites(p, f1, f2, diffs), w.calls, w.written, ok);
    if !ok {
      return Some(FailedToRenderDiff);
    }
    return None;
  }

  // ---------------------------------------------------------------------------
  // Inline output

  /** Everything inlineDiff writes, in order, when no write fails: the target name in
      green, the source name in red, then the pretty-printed diff. */
  function InlineWrites(p: Palette, f1: string, f2: string, pretty: string): seq<string> {
    [p.green + f2 + p.reset + "\n", p.red + f1 + p.reset + "\n\n", pretty]
  }

  /** inlineDiff: three writes, the first failure ending it with FailedToRenderDiff. */
  method WriteInline(w: Writer, p: Palette, differ: Differ, text1: string, text2: string, f1: string, f2: string)
    returns (err: Option<DiffError>)
    modifies w
    ensures var e := Emit(w.fails, old(w.calls), InlineWrites(p, f1, f2, differ.prettyText(differ.charDiff(text1, text2))));
      && w.written == old(w.written) + e.written && w.calls == old(w.calls) + e.calls
      && err == ErrorOf(e)
  {
    var diffs := differ.charDiff(text1, text2);
    ghost var plan := InlineWrites(p, f1, f2, differ.prettyText(diffs));
    ghost var start := w.calls;
    var ok := w.Write(p.green + f2 + p.reset + "\n");
    if !ok {
      EmitStopsAt(w.fails, start, plan, 0);
      return Some(FailedToRenderDiff);
    }
    ok := w.Write(p.red + f1 + p.reset + "\n\n");
    if !ok {
      EmitStopsAt(w.fails, start, plan, 1);
      return Some(FailedToRenderDiff);
    }
    ok := w.Write(differ.prettyText(diffs));
    if !ok {
      EmitStopsAt(w.fails, start, plan, 2);
      return Some(FailedToRenderDiff);
    }
    EmitAllOk(w.fails, start, plan);
    return None;
  }

  /** A writer whose `n`-th call fails (counting from 1) receives exactly the first
      `n - 1` pieces of a git-style diff when those exist; in particular failing on the
      first call writes nothing and failing on the third writes just the two headers. */
  lemma FailingWriterGitStyle(p: Palette, f1: string, f2: string, diffs: seq<Chunk>, n: nat)
    requires 1 <= n <= |GitWrites(p, f1, f2, diffs)|
    ensures Emit(x => x == n - 1, 0, GitWrites(p, f1, f2, diffs)).written == GitWrites(p, f1, f2, diffs)[..n - 1]
    ensures n == 3 ==> Emit(x => x == n - 1, 0, GitWrites(p, f1, f2, diffs)).written == Headers(p, f1, f2)
    ensures !Emit(x => x == n - 1, 0, GitWrites(p, f1, f2, diffs)).ok
  {
    var plan := GitWrites(p, f1, f2, diffs);
    EmitStopsAt(x => x == n - 1, 0, plan, n - 1);
    if n == 3 {
      assert plan[..2] == Headers(p, f1, f2);
    }
  }

  // ---------------------------------------------------------------------------
  // The diff store and the exported diffs

  /** The store getTexts uses to fetch texts; `consulted` records each lookup it makes,
      by kind and identifier, so that the order of lookups can be stated. */
  class DiffStore {
    const disk: Disk
    const codec: Codec
    ghost var consulted: seq<(Kind, string)>

    constructor (disk: Disk, codec: Codec)
      ensures this.disk == disk && this.codec == codec && consulted == []
    {
      this.disk := disk;
      this.codec := codec;
      consulted := [];
    }

    /** getResponseByID: the ResponseYaml of a fresh store after GetResponseByID. */
    method GetResponseByID(responseID: string) returns (res: Result<string, StoreError>)
      modifies this`consulted
      ensures consulted == old(consulted) + [(ResponseKind, responseID)]
      ensures res == Stored(codec, disk.fs, ResponseKind, responseID)
    {
      consulted := consulted + [(ResponseKind, responseID)];
      var store := new RecordStore.Open(disk, codec);
      store.responseID := responseID;
      var err := store.GetResponseByID();
      if err.Some? {
        return Err(err.value);
      }
      return Ok(store.responseYaml);
    }

    /** getRequestByHash: the RequestYaml of a fresh store after GetRequestByHash. */
    method GetRequestByHash(requestHash: string) returns (res: Result<string, StoreError>)
      modifies this`consulted
      ensures consulted == old(consulted) + [(RequestKind, requestHash)]
      ensures res == Stored(codec, disk.fs, RequestKind, requestHash)
    {
      consulted := consulted + [(RequestKind, requestHash)];
      var store := new RecordStore.Open(disk, codec);
      store.requestHash := requestHash;
      var err := store.GetRequestByHash();
      if err.Some? {
        return Err(err.value);
      }
      return Ok(store.requestYaml);
    }

    /** getTemplateByHash: the TemplateYaml of a fresh store after GetTemplateByHash. */
    method GetTemplateByHash(templateHash: string) returns (res: Result<string, StoreError>)
      modifies this`consulted
      ensures consulted == old(consulted) + [(TemplateKind, templateHash)]
      ensures res == Stored(codec, disk.fs, TemplateKind, templateHash)
    {
      consulted := consulted + [(TemplateKind, templateHash)];
      var store := new RecordStore.Open(disk, codec);
      store.templateHash := templateHash;
      var err := store.GetTemplateByHash();
      if err.Some? {
        return Err(err.value);
      }
      return Ok(store.templateYaml);
    }

    method Fetch(kind: Kind, id: string) returns (res: Result<string, StoreError>)
      modifies this`consulted
      ensures consulted == old(consulted) + [(kind, id)]
      ensures res == Stored(codec, disk.fs, kind, id)
    {
      match kind {
        case ResponseKind => res := GetResponseByID(id);
        case RequestKind => res := GetRequestByHash(id);
        case TemplateKind => res := GetTemplateByHash(id);
      }
    }

    /** getTexts: an unknown kind fails before any lookup; a failed source lookup is
        returned before the target is looked up. */
    method GetTexts(source: string, target: string, resource: string) returns (res: Result<(string, string), DiffError>)
      modifies this`consulted
      ensures res == Texts(codec, disk.fs, source, target, resource)
      ensures KindOf(resource).None? ==> consulted == old(consulted)
      ensures KindOf(resource).Some? ==>
        var k := KindOf(resource).value;
        consulted == old(consulted) + [(k, source)]
          + (if Stored(codec, disk.fs, k, source).Err? then [] else [(k, target)])
    {
      var kind := KindOf(resource);
      if kind.None? {
        return Err(InvalidDiffType);
      }
      var text1 := Fetch(kind.value, source);
      if text1.Err? {
        return Err(StoreFailed(text1.error));
      }
      var text2 := Fetch(kind.value, target);
      if text2.Err? {
        return Err(StoreFailed(text2.error));
      }
      return Ok((text1.value, text2.value));
    }
  }

  /** DefaultDiff: fetch the texts and write them git style; when fetching fails nothing
      is written and the fetch error is returned. */
  method DefaultDiff(w: Writer, disk: Disk, codec: Codec, differ: Differ, p: Palette,
                     source: string, target: string, resource: string)
    returns (err: Option<DiffError>)
    modifies w
    ensures match Texts(codec, disk.fs, source, target, resource)
      case Err(e) => err == Some(e) && w.written == old(w.written) && w.calls == old(w.calls)
      case Ok(t) =>
        var e := Emit(w.fails, old(w.calls), GitWrites(p, source, target, differ.lineDiff(t.0, t.1)));
        w.written == old(w.written) + e.written && w.calls == old(w.calls) + e.calls && err == ErrorOf(e)
  {
    var store := new DiffStore(disk, codec);
    var texts := store.GetTexts(source, target, resource);
    if texts.Err? {
      return Some(texts.error);
    }
    err := WriteGitStyle(w, p, differ, texts.value.0, texts.value.1, source, target);
  }

  /** InlineDiff: fetch the texts and write them inline; when fetching fails nothing is
      written and the fetch error is returned. */
  method InlineDiff(w: Writer, disk: Disk, codec: Codec, differ: Differ, p: Palette,
                    source: string, target: string, resource: string)
    returns (err: Option<DiffError>)
    modifies w
    ensures match Texts(codec, disk.fs, source, target, resource)
      case Err(e) => err == Some(e) && w.written == old(w.written) && w.calls == old(w.calls)
      case Ok(t) =>
        var e := Emit(w.fails, old(w.calls), InlineWrites(p, source, target, differ.prettyText(differ.charDiff(t.0, t.1))));
        w.written == old(w.written) + e.written && w.calls == old(w.calls) + e.calls && err == ErrorOf(e)
  {
    var store := new DiffStore(disk, codec);
    var texts := store.GetTexts(source, target, resource);
    if texts.Err? {
      return Some(texts.error);
    }
    err := WriteInline(w, p, differ, texts.value.0, texts.value.1, source, target);
  }
}
