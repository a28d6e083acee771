/** The script's top level (MWSC_RAW_DataParse.py:81-218): for each RAW
    file, the date taken from its name, the four output file names, the
    header cut, the chunking, and the conversion of every chunk appended to
    the four files of the save directory. */
module Driver {
  import opened Base
  import opened Grammar
  import opened Extractor
  import opened Header
  import opened Splitter

  /** `numChunks`: how many chunks the declared samples are divided into. */
  const NumChunks: nat := 20

  /** Length of a `YYMMDD_hhmmss` date. */
  const DateLength: nat := 13

  // ---------------------------------------------------------------------
  // The date in the file name (`progFileName`).

  predicate DigitsIn(s: string, i: nat, j: nat)
    requires i <= j <= |s|
  {
    forall p :: i <= p < j ==> IsDigit(s[p])
  }

  /** `progFileName` matches at `i`: six digits, an underscore, six digits. */
  predicate DateAt(s: string, i: nat)
  {
    i + DateLength <= |s| && DigitsIn(s, i, i + 6) && s[i + 6] == '_'
    && DigitsIn(s, i + 7, i + DateLength)
  }

  /** The pattern matches at no position from `i` up to, but not including, `j`. */
  predicate NoDateIn(s: string, i: nat, j: nat)
  {
    forall m :: i <= m < j ==> !DateAt(s, m)
  }

  lemma NoDateExtend(s: string, i: nat, j: nat)
    requires !DateAt(s, i) && NoDateIn(s, i + 1, j)
    ensures NoDateIn(s, i, j)
  {
  }

  /** Where `progFileName.search` matches when it tries the positions `i`,
      `i + 1`, ... in turn: the leftmost position. */
  function DateFrom(s: string, i: nat): (r: Option<nat>)
    ensures r.Some? ==> i <= r.value && DateAt(s, r.value) && NoDateIn(s, i, r.value)
    ensures r.None? ==> NoDateIn(s, i, |s| + 1)
    decreases |s| + 1 - i
  {
    if i > |s| then None
    else if DateAt(s, i) then Some(i)
    else
      var r := DateFrom(s, i + 1);
      NoDateExtend(s, i, if r.Some? then r.value else |s| + 1);
      r
  }

  /** `progFileName.search(fileName).group(0)`; `None` where the source
      fails because the name holds no date. */
  function FileDate(name: string): (r: Option<string>)
    ensures r.None? <==> NoDateIn(name, 0, |name| + 1)
    ensures r.Some? ==> |r.value| == DateLength && DateAt(r.value, 0)
    ensures r.Some? ==>
      exists i: nat :: DateAt(name, i) && NoDateIn(name, 0, i) && r.value == name[i..i + DateLength]
  {
    match DateFrom(name, 0)
    case None => None
    case Some(i) =>
      var d := name[i..i + DateLength];
      assert forall p :: 0 <= p < DateLength ==> d[p] == name[i + p];
      assert DateAt(name, i) && NoDateIn(name, 0, i) && d == name[i..i + DateLength];
      Some(d)
  }

  // ---------------------------------------------------------------------
  // Output file names (MWSC_RAW_DataParse.py:144-152).

  /** The sub-directory, and file name prefix, of each stream. */
  function Dir(st: Stream): string
  {
    match st
    case Met => "Met"
    case Las1 => "LAS1"
    case Las2 => "LAS2"
    case Mws => "MWS"
  }

  /** The part of an output name before the date. */
  function Lead(st: Stream): string
  {
    "/" + Dir(st) + "/" + Dir(st) + "_"
  }

  /** A stream's output file, relative to the save directory. */
  function OutputName(st: Stream, date: string): string
  {
    Lead(st) + date + ".dat"
  }

  /** The path of a stream's output file. */
  function PathOf(saveDir: string, date: string, st: Stream): string
  {
    saveDir + OutputName(st, date)
  }

  /** The first five characters of the lead tell the streams apart. */
  lemma LeadsDiffer(st1: Stream, st2: Stream)
    requires st1 != st2
    ensures |Lead(st1)| >= 5 && |Lead(st2)| >= 5 && Lead(st1)[..5] != Lead(st2)[..5]
  {
    assert Lead(Met)[..5] == "/Met/";
    assert Lead(Las1)[..5] == "/LAS1";
    assert Lead(Las2)[..5] == "/LAS2";
    assert Lead(Mws)[..5] == "/MWS/";
  }

  /** Different streams or different dates never share an output path, so
      no file of one conversion overwrites another of the same save
      directory. */
  lemma PathOfInjective(saveDir: string, d1: string, st1: Stream, d2: string, st2: Stream)
    ensures PathOf(saveDir, d1, st1) == PathOf(saveDir, d2, st2) <==> d1 == d2 && st1 == st2
  {
    var p1 := PathOf(saveDir, d1, st1);
    var p2 := PathOf(saveDir, d2, st2);
    var k := |saveDir|;
    if st1 != st2 {
      LeadsDiffer(st1, st2);
      assert p1[k..k + 5] == Lead(st1)[..5];
      assert p2[k..k + 5] == Lead(st2)[..5];
    } else if d1 != d2 {
      var l := k + |Lead(st1)|;
      assert p1[l..|p1| - 4] == d1;
      assert p2[l..|p2| - 4] == d2;
    }
  }

  // ---------------------------------------------------------------------
  // What one RAW file converts to.

  /** Why the source stops on a file: the name holds no date, or the text
      holds no sample-count header. */
  datatype Failure = NoFileDate | NoSampleCount

  /** The date of a converted file and the text of each of its streams. */
  datatype Converted = Converted(date: string, las1: string, las2: string, mws: string, met: string)

  /** The text of one stream of a converted file. */
  function StreamText(c: Converted, st: Stream): string
  {
    match st
    case Met => c.met
    case Las1 => c.las1
    case Las2 => c.las2
    case Mws => c.mws
  }

  /** The chunks cut from the text after the header for `n` declared
      samples. */
  function Chunks(body: string, n: nat): seq<string>
  {
    SplitPrefix(body, IntendedSchedule(ChunkPlan(n, NumChunks))).0
  }

  /** A stream's text: the lines of every record of every chunk, in order. */
  function StreamOf(chunks: seq<string>, st: Stream): string
  {
    Concat(OutLines(ExtractAll(chunks), st))
  }

  /** A converted file with one stream's text replaced. */
  function WithText(c: Converted, st: Stream, t: string): (c2: Converted)
    ensures c2.date == c.date && StreamText(c2, st) == t
    ensures forall s :: s != st ==> StreamText(c2, s) == StreamText(c, s)
  {
    match st
    case Met => c.(met := t)
    case Las1 => c.(las1 := t)
    case Las2 => c.(las2 := t)
    case Mws => c.(mws := t)
  }

  function ConvertedOf(date: string, chunks: seq<string>): Converted
  {
    Converted(date, StreamOf(chunks, Las1), StreamOf(chunks, Las2), StreamOf(chunks, Mws), StreamOf(chunks, Met))
  }

  /** Converting one file: the date first, then the header. */
  function Convert(fileName: string, content: string): (r: Result<Converted, Failure>)
    ensures r == Err(NoFileDate) <==> FileDate(fileName).None?
    ensures r == Err(NoSampleCount) <==> FileDate(fileName).Some? && CutHeader(content).None?
    ensures r.Ok? ==> r.value.date == FileDate(fileName).value
  {
    match FileDate(fileName)
    case None => Err(NoFileDate)
    case Some(date) =>
      match CutHeader(content)
      case None => Err(NoSampleCount)
      case Some((n, body)) => Ok(ConvertedOf(date, Chunks(body, n)))
  }

  lemma ConvertOk(fileName: string, content: string, date: string, n: nat, body: string)
    requires FileDate(fileName) == Some(date) && CutHeader(content) == Some((n, body))
    ensures Convert(fileName, content) == Ok(ConvertedOf(date, Chunks(body, n)))
  {
  }

  /** A file fails exactly when its name holds no date or its text holds no
      header; a missing date is reported first. */
  lemma ConvertFails(fileName: string, content: string)
    ensures Convert(fileName, content) == Err(NoFileDate) <==> NoDateIn(fileName, 0, |fileName| + 1)
    ensures Convert(fileName, content) == Err(NoSampleCount) <==>
      !NoDateIn(fileName, 0, |fileName| + 1) && forall i :: 0 <= i <= |content| ==> NumSampleAt(content, i).None?
  {
    CutHeaderMissing(content);
  }

  /** Every stream of a converted file has one line per record extracted
      from its chunks, so the four files have the same number of lines. */
  lemma ConvertLineCounts(fileName: string, content: string, st: Stream)
    requires Convert(fileName, content).Ok?
    ensures var n := CutHeader(content).value.0;
      var body := CutHeader(content).value.1;
      CountChar(StreamText(Convert(fileName, content).value, st), '\n') == |ExtractAll(Chunks(body, n))|
  {
    var n := CutHeader(content).value.0;
    var body := CutHeader(content).value.1;
    OutLinesLineCount(ExtractAll(Chunks(body, n)), st);
  }

  /** End to end: a file whose name holds a date and whose text is some
      header lines `pre` without a sample count, the line declaring `n`
      samples, and at least `n` well-formed records converts to exactly the
      lines of the first `n` records, in order, in each stream. */
  lemma ConvertRecords(fileName: string, pre: string, d: string, rs: seq<Record>)
    requires FileDate(fileName).Some?
    requires CutHeader(pre).None? && (pre == [] || !IsDigit(pre[|pre| - 1]))
    requires |d| > 0 && DigitsIn(d, 0, |d|) && DigitsValue(d) <= |rs|
    requires AllWellFormed(rs)
    ensures var r := Convert(fileName, pre + d + " " + Comment + "\n" + RenderAll(rs));
      r.Ok? && r.value.date == FileDate(fileName).value
      && forall st :: StreamText(r.value, st) == Concat(OutLines(rs[..DigitsValue(d)], st))
  {
    var body := RenderAll(rs);
    var date := FileDate(fileName).value;
    var n := DigitsValue(d);
    var c := ConvertedOf(date, Chunks(body, n));
    HeaderedConvert(fileName, pre, d, body);
    ChunksKeep(date, n, rs);
    assert Convert(fileName, pre + d + " " + Comment + "\n" + body) == Ok(c);
  }

  /** A file whose header lines `pre` hold no sample count, followed by the
      line declaring one, converts the text after that line. */
  lemma HeaderedConvert(fileName: string, pre: string, d: string, body: string)
    requires FileDate(fileName).Some?
    requires CutHeader(pre).None? && (pre == [] || !IsDigit(pre[|pre| - 1]))
    requires |d| > 0 && DigitsIn(d, 0, |d|)
    ensures Convert(fileName, pre + d + " " + Comment + "\n" + body) ==
      Ok(ConvertedOf(FileDate(fileName).value, Chunks(body, DigitsValue(d))))
  {
    CutHeaderAfter(pre, d, body);
  }

  /** The chunks cut for `n` declared samples from the text of at least `n`
      well-formed records carry exactly the first `n` records to every
      stream. */
  lemma ChunksKeep(date: string, n: nat, rs: seq<Record>)
    requires n <= |rs| && AllWellFormed(rs)
    ensures forall st :: StreamText(ConvertedOf(date, Chunks(RenderAll(rs), n)), st) == Concat(OutLines(rs[..n], st))
  {
    IntendedSplitKeepsAll(rs, n, NumChunks);
    TextsOf(date, Chunks(RenderAll(rs), n), rs[..n]);
  }

  lemma TextsOf(date: string, cs: seq<string>, rs: seq<Record>)
    requires ExtractAll(cs) == rs
    ensures forall st :: StreamText(ConvertedOf(date, cs), st) == Concat(OutLines(rs, st))
  {
    var c := ConvertedOf(date, cs);
    forall st
      ensures StreamText(c, st) == Concat(OutLines(rs, st))
    {
      match st
      case Met => assert c.met == StreamOf(cs, Met);
      case Las1 => assert c.las1 == StreamOf(cs, Las1);
      case Las2 => assert c.las2 == StreamOf(cs, Las2);
      case Mws => assert c.mws == StreamOf(cs, Mws);
    }
  }

  // ---------------------------------------------------------------------
  // The save directory.

  /** The save directory: the text of each file, by path. */
  class SaveDir {
    var files: map<string, string>

    constructor ()
      ensures files == map[]
    {
      files := map[];
    }

    /** `open(path, "w+")`: creates the file, or empties it. */
    method Open(path: string)
      modifies this
      ensures files == old(files)[path := ""]
    {
      files := files[path := ""];
    }

    /** `write(text)` on an open file: appends the text. */
    method Write(path: string, text: string)
      requires path in files
      modifies this
      ensures files == old(files)[path := old(files)[path] + text]
    {
      files := files[path := files[path] + text];
    }
  }

  /** The files after the four of a conversion are written. */
  function Store(fs: map<string, string>, saveDir: string, c: Converted): map<string, string>
  {
    fs[PathOf(saveDir, c.date, Met) := c.met]
      [PathOf(saveDir, c.date, Las1) := c.las1]
      [PathOf(saveDir, c.date, Las2) := c.las2]
      [PathOf(saveDir, c.date, Mws) := c.mws]
  }

  /** After a conversion is stored, each of its paths holds its stream's
      text, and every other path is as before. */
  lemma StoreReads(fs: map<string, string>, saveDir: string, c: Converted, p: string)
    ensures forall st :: PathOf(saveDir, c.date, st) in Store(fs, saveDir, c)
    ensures forall st :: Store(fs, saveDir, c)[PathOf(saveDir, c.date, st)] == StreamText(c, st)
    ensures (forall st :: p != PathOf(saveDir, c.date, st)) ==>
      (p in Store(fs, saveDir, c) <==> p in fs) && (p in fs ==> Store(fs, saveDir, c)[p] == fs[p])
  {
    forall st1: Stream, st2: Stream | st1 != st2
      ensures PathOf(saveDir, c.date, st1) != PathOf(saveDir, c.date, st2)
    {
      PathOfInjective(saveDir, c.date, st1, c.date, st2);
    }
  }

  /** Appending to one stream's file of a stored conversion. */
  lemma StoreWrite(fs: map<string, string>, saveDir: string, c: Converted, st: Stream, t: string)
    ensures PathOf(saveDir, c.date, st) in Store(fs, saveDir, c)
    ensures Store(fs, saveDir, c)[PathOf(saveDir, c.date, st)] == StreamText(c, st)
    ensures Store(fs, saveDir, c)[PathOf(saveDir, c.date, st) := t] == Store(fs, saveDir, WithText(c, st, t))
  {
    var d := c.date;
    var pm, p1, p2, pw := PathOf(saveDir, d, Met), PathOf(saveDir, d, Las1), PathOf(saveDir, d, Las2), PathOf(saveDir, d, Mws);
    PathOfInjective(saveDir, d, Met, d, Las1);
    PathOfInjective(saveDir, d, Met, d, Las2);
    PathOfInjective(saveDir, d, Met, d, Mws);
    PathOfInjective(saveDir, d, Las1, d, Las2);
    PathOfInjective(saveDir, d, Las1, d, Mws);
    PathOfInjective(saveDir, d, Las2, d, Mws);
    assert pm != p1 && pm != p2 && pm != pw && p1 != p2 && p1 != pw && p2 != pw;
    match st
    case Met =>
      assert Store(fs, saveDir, c)[pm := t] == fs[pm := t][p1 := c.las1][p2 := c.las2][pw := c.mws];
    case Las1 =>
      assert Store(fs, saveDir, c)[p1 := t] == fs[pm := c.met][p1 := t][p2 := c.las2][pw := c.mws];
    case Las2 =>
      assert Store(fs, saveDir, c)[p2 := t] == fs[pm := c.met][p1 := c.las1][p2 := t][pw := c.mws];
    case Mws =>
  }

  lemma {:induction false} OutLinesAppend(a: seq<Record>, b: seq<Record>, st: Stream)
    ensures OutLines(a + b, st) == OutLines(a, st) + OutLines(b, st)
  {
    if b == [] {
      assert a + b == a;
    } else {
      var b0 := b[..|b| - 1];
      assert (a + b)[..|a + b| - 1] == a + b0;
      assert (a + b)[|a + b| - 1] == b[|b| - 1];
      OutLinesAppend(a, b0, st);
    }
  }

  /** One more chunk adds its records' lines to a stream. */
  lemma StreamStep(chunks: seq<string>, i: nat, st: Stream, x: string)
    requires i < |chunks| && x == Concat(OutLines(ExtractRecords(chunks[i]), st))
    ensures StreamOf(chunks[..i + 1], st) == StreamOf(chunks[..i], st) + x
  {
    var p := chunks[..i + 1];
    var a, b := ExtractAll(chunks[..i]), ExtractRecords(chunks[i]);
    assert p[..i] == chunks[..i] && p[i] == chunks[i];
    assert ExtractAll(p) == a + b;
    OutLinesAppend(a, b, st);
    ConcatAppend(OutLines(a, st), OutLines(b, st));
  }

  /** One RAW file, as the body of the source's loop over files: on success
      the save directory holds the four streams under the file's date; on
      failure nothing is written. */
  method ConvertFile(dir: SaveDir, saveDir: string, fileName: string, content: string)
    returns (r: Result<Converted, Failure>)
    modifies dir
    ensures r == Convert(fileName, content)
    ensures dir.files == if r.Ok? then Store(old(dir.files), saveDir, r.value) else old(dir.files)
  {
    var date := FileDate(fileName);
    if date.None? {
      return Err(NoFileDate);
    }
    var header := CutHeader(content);
    if header.None? {
      return Err(NoSampleCount);
    }
    var n := header.value.0;
    var body := header.value.1;
    var chunks, _ := SplitChunks(body, ChunkPlan(n, NumChunks));
    var d := date.value;
    ghost var fs := dir.files;
    dir.Open(PathOf(saveDir, d, Met));
    dir.Open(PathOf(saveDir, d, Las1));
    dir.Open(PathOf(saveDir, d, Las2));
    dir.Open(PathOf(saveDir, d, Mws));
    assert dir.files == Store(fs, saveDir, ConvertedOf(d, chunks[..0]));
    for i := 0 to |chunks|
      invariant dir.files == Store(fs, saveDir, ConvertedOf(d, chunks[..i]))
    {
      var las1, las2, mws, met, _ := SortData(chunks[i]);
      WriteChunk(dir, saveDir, d, chunks, i, las1, las2, mws, met, fs);
    }
    assert chunks[..|chunks|] == chunks;
    r := Ok(ConvertedOf(d, chunks));
  }

  /** The four writes for chunk `i`: Met, LAS1, LAS2, MWS, as the source
      orders them. */
  method WriteChunk(dir: SaveDir, saveDir: string, d: string, chunks: seq<string>, i: nat,
                    las1: string, las2: string, mws: string, met: string, ghost fs: map<string, string>)
    requires i < |chunks|
    requires dir.files == Store(fs, saveDir, ConvertedOf(d, chunks[..i]))
    requires las1 == Concat(OutLines(ExtractRecords(chunks[i]), Las1))
    requires las2 == Concat(OutLines(ExtractRecords(chunks[i]), Las2))
    requires mws == Concat(OutLines(ExtractRecords(chunks[i]), Mws))
    requires met == Concat(OutLines(ExtractRecords(chunks[i]), Met))
    modifies dir
    ensures dir.files == Store(fs, saveDir, ConvertedOf(d, chunks[..i + 1]))
  {
    var c0 := ConvertedOf(d, chunks[..i]);
    var c1 := WithText(c0, Met, c0.met + met);
    var c2 := WithText(c1, Las1, c1.las1 + las1);
    var c3 := WithText(c2, Las2, c2.las2 + las2);
    var c4 := WithText(c3, Mws, c3.mws + mws);
    StoreWrite(fs, saveDir, c0, Met, c0.met + met);
    dir.Write(PathOf(saveDir, d, Met), met);
    StoreWrite(fs, saveDir, c1, Las1, c1.las1 + las1);
    dir.Write(PathOf(saveDir, d, Las1), las1);
    StoreWrite(fs, saveDir, c2, Las2, c2.las2 + las2);
    dir.Write(PathOf(saveDir, d, Las2), las2);
    StoreWrite(fs, saveDir, c3, Mws, c3.mws + mws);
    dir.Write(PathOf(saveDir, d, Mws), mws);
    StreamStep(chunks, i, Met, met);
    StreamStep(chunks, i, Las1, las1);
    StreamStep(chunks, i, Las2, las2);
    StreamStep(chunks, i, Mws, mws);
    assert c4 == ConvertedOf(d, chunks[..i + 1]);
  }

  // ---------------------------------------------------------------------
  // The loop over files (MWSC_RAW_DataParse.py:133-218).

  /** The files after storing the conversions of the given inputs, in
      order, skipping any that fail. */
  function StoreAll(fs: map<string, string>, saveDir: string, inputs: seq<(string, string)>): (r: map<string, string>)
    ensures fs.Keys <= r.Keys
  {
    if inputs == [] then fs
    else
      var before := StoreAll(fs, saveDir, inputs[..|inputs| - 1]);
      var last := inputs[|inputs| - 1];
      match Convert(last.0, last.1)
      case Ok(c) => Store(before, saveDir, c)
      case Err(_) => before
  }

  lemma StoreAllStep(fs: map<string, string>, saveDir: string, inputs: seq<(string, string)>, i: nat, c: Converted)
    requires i < |inputs| && Convert(inputs[i].0, inputs[i].1) == Ok(c)
    ensures StoreAll(fs, saveDir, inputs[..i + 1]) == Store(StoreAll(fs, saveDir, inputs[..i]), saveDir, c)
  {
    assert inputs[..i + 1][..i] == inputs[..i];
  }

  /** A later file with the same date overwrites the earlier one's output:
      after storing a list of inputs, the paths of the last converted input
      hold its texts. */
  lemma LastFileWins(fs: map<string, string>, saveDir: string, inputs: seq<(string, string)>, st: Stream)
    requires inputs != [] && Convert(inputs[|inputs| - 1].0, inputs[|inputs| - 1].1).Ok?
    ensures var c := Convert(inputs[|inputs| - 1].0, inputs[|inputs| - 1].1).value;
      PathOf(saveDir, c.date, st) in StoreAll(fs, saveDir, inputs)
      && StoreAll(fs, saveDir, inputs)[PathOf(saveDir, c.date, st)] == StreamText(c, st)
  {
    var c := Convert(inputs[|inputs| - 1].0, inputs[|inputs| - 1].1).value;
    StoreReads(StoreAll(fs, saveDir, inputs[..|inputs| - 1]), saveDir, c, []);
  }

  /** Every input before `k` converts. */
  predicate AllConvert(inputs: seq<(string, string)>, k: nat)
    requires k <= |inputs|
  {
    forall j :: 0 <= j < k ==> Convert(inputs[j].0, inputs[j].1).Ok?
  }

  lemma ConvertedSoFar(inputs: seq<(string, string)>, k: nat)
    requires k < |inputs| && AllConvert(inputs, k) && Convert(inputs[k].0, inputs[k].1).Ok?
    ensures AllConvert(inputs, k + 1)
  {
  }

  /** The script: the input files in the order they are listed, each
      converted and written; the first failure ends the run (an uncaught
      exception in the source). Returns how many files were converted and
      the failure, if any. */
  method ConvertAll(dir: SaveDir, saveDir: string, inputs: seq<(string, string)>)
    returns (done: nat, failure: Option<Failure>)
    modifies dir
    ensures done <= |inputs|
    ensures forall j :: 0 <= j < done ==> Convert(inputs[j].0, inputs[j].1).Ok?
    ensures failure.Some? <==> done < |inputs|
    ensures failure.Some? ==> Convert(inputs[done].0, inputs[done].1) == Err(failure.value)
    ensures dir.files == StoreAll(old(dir.files), saveDir, inputs[..done])
  {
    done := 0;
    failure := None;
    while done < |inputs|
      invariant done <= |inputs|
      invariant AllConvert(inputs, done)
      invariant dir.files == StoreAll(old(dir.files), saveDir, inputs[..done])
      decreases |inputs| - done
    {
      var r := ConvertFile(dir, saveDir, inputs[done].0, inputs[done].1);
      if r.Err? {
        failure := Some(r.error);
        return;
      }
      StoreAllStep(old(dir.files), saveDir, inputs, done, r.value);
      ConvertedSoFar(inputs, done);
      done := done + 1;
    }
  }
}
