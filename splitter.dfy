/** The chunk splitter (MWSC_RAW_DataParse.py:183-196): the text after the
    header is cut into chunks of whole records with the search pattern
    `(# Ye.+\n(.+\n){64}){K}`, one search per chunk, each search resuming
    where the previous chunk ended. */
module Splitter {
  import opened Base
  import opened Grammar
  import opened Extractor
  import opened Header

  /** One repetition of `# Ye.+\n(.+\n){64}` at `p`: 65 non-empty lines, each
      followed by a line feed, the first of them a `# Ye` header. On success,
      the position just past the last line feed. */
  function UnitAt(s: string, p: nat): (e: Option<nat>)
    requires p <= |s|
    ensures e.Some? ==> p < e.value <= |s|
  {
    match ReadLines(s, p, RecordLines)
    case None => None
    case Some((ls, end)) => if end < |s| && IsMetHeader(ls[0]) then Some(end + 1) else None
  }

  /** `k` repetitions one after the other from `p`; the end of the last. */
  function UnitsAt(s: string, p: nat, k: nat): (e: Option<nat>)
    requires p <= |s|
    ensures e.Some? ==> p <= e.value <= |s|
    decreases k
  {
    if k == 0 then Some(p)
    else
      match UnitAt(s, p)
      case None => None
      case Some(e) => UnitsAt(s, e, k - 1)
  }

  /** The search tried at the start positions `i`, `i + 1`, ... in turn: the
      first start where `k` repetitions match, and their end. */
  function ChunkFrom(s: string, k: nat, i: nat): (m: Option<(nat, nat)>)
    requires i <= |s| + 1
    ensures m.Some? ==> i <= m.value.0 <= |s| && UnitsAt(s, m.value.0, k) == Some(m.value.1)
    decreases |s| + 1 - i
  {
    if i > |s| then None
    else
      match UnitsAt(s, i, k)
      case Some(e) => Some((i, e))
      case None => ChunkFrom(s, k, i + 1)
  }

  /** No start position in `[i, j)` begins `k` repetitions. */
  predicate NoChunkIn(s: string, k: nat, i: nat, j: nat)
    requires j <= |s| + 1
  {
    forall m :: i <= m < j ==> UnitsAt(s, m, k).None?
  }

  /** The search finds the leftmost start at which the chunk matches, and
      misses only when it matches nowhere. */
  lemma {:induction false} ChunkFromLeftmost(s: string, k: nat, i: nat)
    requires i <= |s| + 1
    ensures ChunkFrom(s, k, i).Some? ==> NoChunkIn(s, k, i, ChunkFrom(s, k, i).value.0)
    ensures ChunkFrom(s, k, i).None? ==> NoChunkIn(s, k, i, |s| + 1)
    decreases |s| + 1 - i
  {
    if i <= |s| && UnitsAt(s, i, k).None? {
      ChunkFromLeftmost(s, k, i + 1);
    }
  }

  /** `progChunk.search(dataContent)` for a chunk of `k` records. */
  function ChunkSearch(s: string, k: nat): (m: Option<(nat, nat)>)
    ensures m.Some? ==> m.value.0 <= m.value.1 <= |s|
  {
    ChunkFrom(s, k, 0)
  }

  /** The searches for the chunk sizes `sizes`, in order, from the text `s`:
      every hit appends the matched text to the chunks and drops the buffer
      up to the end of the match; a miss changes nothing. Returns the chunks
      and what remains of the buffer. */
  function SplitPrefix(s: string, sizes: seq<nat>): (r: (seq<string>, string))
    ensures |r.0| <= |sizes| && IsSuffix(r.1, s)
  {
    if sizes == [] then ([], s)
    else
      var prev := SplitPrefix(s, sizes[..|sizes| - 1]);
      var rest := prev.1;
      match ChunkSearch(rest, sizes[|sizes| - 1])
      case None => prev
      case Some((p, e)) => (prev.0 + [rest[p..e]], rest[e..])
  }

  /** The chunk sizes the source searches for: the loop runs `count + 1`
      times, the last search uses the smaller size when there is one and the
      others the normal size. */
  function SourceSchedule(p: Plan): (sizes: seq<nat>)
    ensures |sizes| == p.count + 1
    ensures forall i :: 0 <= i < p.count ==> sizes[i] == p.chunkSize
    ensures sizes[p.count] == if p.hasLast then p.lastSize else p.chunkSize
  {
    Repeat(p.chunkSize, p.count) + [if p.hasLast then p.lastSize else p.chunkSize]
  }

  /** The chunk sizes evidently intended: `count` searches, the last of them
      with the smaller size when there is one. */
  function IntendedSchedule(p: Plan): (sizes: seq<nat>)
    ensures |sizes| == p.count
    ensures forall i :: 0 <= i < p.count ==>
      sizes[i] == if p.hasLast && i == p.count - 1 then p.lastSize else p.chunkSize
  {
    if p.hasLast && p.count > 0 then Repeat(p.chunkSize, p.count - 1) + [p.lastSize]
    else Repeat(p.chunkSize, p.count)
  }

  /** The records found in a list of chunks, chunk by chunk. */
  function ExtractAll(chunks: seq<string>): seq<Record>
  {
    if chunks == [] then []
    else ExtractAll(chunks[..|chunks| - 1]) + ExtractRecords(chunks[|chunks| - 1])
  }

  /** The intended loop: `count` searches, the last one for the smaller chunk
      when the samples do not divide evenly, each search for a chunk size
      spelled by the pattern of MWSC_RAW_DataParse.py:183. */
  method SplitChunks(content: string, p: Plan) returns (chunks: seq<string>, rest: string)
    ensures (chunks, rest) == SplitPrefix(content, IntendedSchedule(p))
  {
    chunks := [];
    rest := content;
    ghost var sched := IntendedSchedule(p);
    assert |sched| == p.count;
    for i := 0 to p.count
      invariant (chunks, rest) == SplitPrefix(content, sched[..i])
    {
      var k := if p.hasLast && i == p.count - 1 then p.lastSize else p.chunkSize;
      assert sched[..i + 1][..i] == sched[..i] && sched[i] == k;
      var m := ChunkSearch(rest, k);
      if m.Some? {
        chunks := chunks + [rest[m.value.0..m.value.1]];
        rest := rest[m.value.1..];
      }
    }
    assert sched[..p.count] == sched;
  }

  // ---------------------------------------------------------------------
  // What the search finds in the text of well-formed records.

  /** Line feeds in joined lines: one between each two. */
  lemma {:induction false} JoinLinesNewlines(ls: seq<string>)
    requires |ls| >= 1 && AllLines(ls)
    ensures CountChar(JoinLines(ls), '\n') == |ls| - 1
  {
    assert IsLine(ls[0]);
    CountCharAbsent(ls[0], '\n');
    if |ls| > 1 {
      assert AllLines(ls[1..]);
      JoinLinesNewlines(ls[1..]);
      JoinLinesFront(ls);
      CountCharAppend(ls[0], "\n" + JoinLines(ls[1..]), '\n');
      CountCharAppend("\n", JoinLines(ls[1..]), '\n');
    }
  }

  /** What a unit match is: 65 lines read from `p`, the last one followed by
      the line feed that ends the unit. */
  lemma UnitSound(s: string, p: nat)
    requires p <= |s| && UnitAt(s, p).Some?
    ensures var r := ReadLines(s, p, RecordLines);
      r.Some? && UnitAt(s, p).value == r.value.1 + 1 && r.value.1 < |s| && s[r.value.1] == '\n'
      && AllLines(r.value.0) && |r.value.0| == RecordLines && s[p..r.value.1] == JoinLines(r.value.0)
  {
    ReadLinesSound(s, p, RecordLines);
  }

  lemma UnitNewlines(s: string, p: nat)
    requires p <= |s| && UnitAt(s, p).Some?
    ensures CountChar(s[p..UnitAt(s, p).value], '\n') == RecordLines
  {
    UnitSound(s, p);
    var r := ReadLines(s, p, RecordLines).value;
    LinesNewlines(s, p, r.0, r.1, UnitAt(s, p).value);
  }

  lemma LinesNewlines(s: string, p: nat, ls: seq<string>, end: nat, e: nat)
    requires p <= end < |s| && s[end] == '\n' && e == end + 1
    requires |ls| == RecordLines && AllLines(ls) && s[p..end] == JoinLines(ls)
    ensures CountChar(s[p..e], '\n') == RecordLines
  {
    JoinLinesNewlines(ls);
    CountCharSplit(s, p, end, e, '\n');
    CountCharOne(s, end, '\n');
  }

  /** `k` repetitions are one unit followed by `k - 1` more. */
  lemma UnitsPeel(s: string, p: nat, k: nat)
    requires p <= |s| && k > 0 && UnitsAt(s, p, k).Some?
    ensures UnitAt(s, p).Some? && UnitsAt(s, UnitAt(s, p).value, k - 1) == UnitsAt(s, p, k)
  {
  }

  /** `k` repetitions span exactly `65 * k` line feeds. */
  lemma {:induction false} UnitsNewlines(s: string, p: nat, k: nat)
    requires p <= |s| && UnitsAt(s, p, k).Some?
    ensures CountChar(s[p..UnitsAt(s, p, k).value], '\n') == RecordLines * k
    decreases k
  {
    if k > 0 {
      UnitsPeel(s, p, k);
      var e := UnitAt(s, p).value;
      UnitsNewlines(s, e, k - 1);
      UnitNewlines(s, p);
      NewlinesAdd(s, p, e, UnitsAt(s, p, k).value, k);
    }
  }

  lemma NewlinesAdd(s: string, p: nat, e: nat, x: nat, k: nat)
    requires p <= e <= x <= |s| && k > 0
    requires CountChar(s[p..e], '\n') == RecordLines
    requires CountChar(s[e..x], '\n') == RecordLines * (k - 1)
    ensures CountChar(s[p..x], '\n') == RecordLines * k
  {
    CountCharSplit(s, p, e, x, '\n');
  }

  /** The search cannot find `k` records in text with fewer than `65 * k`
      line feeds. */
  lemma SearchMissesShortText(s: string, k: nat)
    requires CountChar(s, '\n') < RecordLines * k
    ensures ChunkSearch(s, k) == None
  {
    if ChunkSearch(s, k).Some? {
      var p := ChunkSearch(s, k).value.0;
      var x := UnitsAt(s, p, k).value;
      UnitsNewlines(s, p, k);
      CountCharSlice(s, p, x, '\n');
    }
  }

  /** What a well-formed record is made of: 65 lines, the first a header. */
  lemma RenderedShape(r: Record)
    requires WellFormed(r)
    ensures |Lines(r)| == RecordLines && AllLines(Lines(r)) && IsMetHeader(Lines(r)[0])
  {
  }

  /** A well-formed record and the line feed after it hold 65 line feeds. */
  lemma RecordNewlines(r: Record)
    requires WellFormed(r)
    ensures CountChar(Render(r) + "\n", '\n') == RecordLines
  {
    RenderedShape(r);
    JoinLinesNewlines(Lines(r));
    assert CountChar("\n", '\n') == 1;
    CountCharAppend(Render(r), "\n", '\n');
  }

  /** The text of well-formed records holds 65 line feeds per record. */
  lemma {:induction false} RenderAllNewlines(rs: seq<Record>)
    requires AllWellFormed(rs)
    ensures CountChar(RenderAll(rs), '\n') == RecordLines * |rs|
  {
    if rs != [] {
      var head := Render(rs[0]) + "\n";
      var tail := RenderAll(rs[1..]);
      assert RenderAll(rs) == head + tail;
      RecordNewlines(rs[0]);
      RenderAllNewlines(rs[1..]);
      CountCharAppend(head, tail, '\n');
      assert RecordLines * |rs| == RecordLines + RecordLines * (|rs| - 1);
    }
  }

  /** Sixty-five lines, the first a `# Ye` header, followed by a line feed,
      are one unit. */
  lemma UnitOfLines(s: string, p: nat, ls: seq<string>, t: string, e: nat)
    requires p <= |s| && |ls| == RecordLines && AllLines(ls) && IsMetHeader(ls[0])
    requires s[p..] == JoinLines(ls) + ("\n" + t)
    requires e == p + |JoinLines(ls)| + 1
    ensures UnitAt(s, p) == Some(e)
  {
    ReadLinesJoined(s, p, ls, "\n" + t);
  }

  /** A well-formed record followed by a line feed is one unit. */
  lemma UnitRendered(s: string, p: nat, r: Record, t: string, e: nat)
    requires p <= |s| && WellFormed(r) && s[p..] == Render(r) + "\n" + t
    requires e == p + |Render(r)| + 1
    ensures UnitAt(s, p) == Some(e) && e <= |s| && s[e..] == t
  {
    RenderedShape(r);
    var ls := Lines(r);
    assert s[p..] == JoinLines(ls) + ("\n" + t);
    assert e == p + |JoinLines(ls)| + 1;
    UnitOfLines(s, p, ls, t, e);
    SuffixAfter(s, p, Render(r) + "\n", t);
  }

  /** A unit followed by `k - 1` more is `k` units. */
  lemma UnitsStep(s: string, p: nat, k: nat, e: nat, x: nat)
    requires p <= |s| && k > 0 && UnitAt(s, p) == Some(e) && UnitsAt(s, e, k - 1) == Some(x)
    ensures UnitsAt(s, p, k) == Some(x)
  {
  }

  /** The text of the first `k` records, peeled at the front. */
  lemma RenderAllPrefixFront(rs: seq<Record>, k: nat)
    requires 0 < k <= |rs|
    ensures RenderAll(rs[..k]) == Render(rs[0]) + "\n" + RenderAll(rs[1..][..k - 1])
  {
    assert rs[..k][1..] == rs[1..][..k - 1];
    assert rs[..k][0] == rs[0];
  }

  /** The first `k` of a sequence of rendered records are `k` units. */
  lemma {:induction false} UnitsRendered(s: string, p: nat, rs: seq<Record>, k: nat, x: nat)
    requires p <= |s| && k <= |rs| && s[p..] == RenderAll(rs) && AllWellFormed(rs)
    requires x == p + |RenderAll(rs[..k])|
    ensures UnitsAt(s, p, k) == Some(x)
    decreases k
  {
    if k > 0 {
      var r := rs[0];
      var tail := RenderAll(rs[1..]);
      var e := p + |Render(r)| + 1;
      UnitRendered(s, p, r, tail, e);
      RenderAllPrefixFront(rs, k);
      UnitsRendered(s, e, rs[1..], k - 1, x);
      UnitsStep(s, p, k, e, x);
    } else {
      assert rs[..0] == [];
    }
  }

  /** Searching the text of well-formed records for `k` of them, when there
      are that many, matches the first `k` at the very start. */
  lemma SearchRendered(rs: seq<Record>, k: nat)
    requires k <= |rs| && AllWellFormed(rs)
    ensures ChunkSearch(RenderAll(rs), k) == Some((0 as nat, |RenderAll(rs[..k])|))
  {
    var s := RenderAll(rs);
    assert s[0..] == s;
    UnitsRendered(s, 0, rs, k, |RenderAll(rs[..k])|);
  }

  /** The text of records, cut after the first `k` of them. */
  lemma RenderAllCut(rs: seq<Record>, k: nat)
    requires k <= |rs|
    ensures |RenderAll(rs[..k])| <= |RenderAll(rs)|
    ensures RenderAll(rs)[..|RenderAll(rs[..k])|] == RenderAll(rs[..k])
    ensures RenderAll(rs)[|RenderAll(rs[..k])|..] == RenderAll(rs[k..])
  {
    assert rs == rs[..k] + rs[k..];
    RenderAllAppend(rs[..k], rs[k..]);
  }

  /** How many of `avail` records the searches for `sizes` consume, each
      search taking its size when that many are left and nothing otherwise. */
  function Taken(sizes: seq<nat>, avail: nat): (t: nat)
    ensures t <= avail
  {
    if sizes == [] then 0
    else
      var t := Taken(sizes[..|sizes| - 1], avail);
      if t + sizes[|sizes| - 1] <= avail then t + sizes[|sizes| - 1] else t
  }

  lemma ExtractAllSnoc(chunks: seq<string>, c: string)
    ensures ExtractAll(chunks + [c]) == ExtractAll(chunks) + ExtractRecords(c)
  {
    assert (chunks + [c])[..|chunks|] == chunks;
  }

  /** One more search, once the earlier ones are known: a hit. */
  lemma SplitHitStep(s: string, a: seq<nat>, k: nat, cs: seq<string>, rest: string, p: nat, e: nat)
    requires SplitPrefix(s, a) == (cs, rest) && ChunkSearch(rest, k) == Some((p, e))
    ensures p <= e <= |rest| && SplitPrefix(s, a + [k]) == (cs + [rest[p..e]], rest[e..])
  {
    assert (a + [k])[..|a|] == a;
  }

  /** One more search, once the earlier ones are known: a miss. */
  lemma SplitMissStep(s: string, a: seq<nat>, k: nat, cs: seq<string>, rest: string)
    requires SplitPrefix(s, a) == (cs, rest) && ChunkSearch(rest, k) == None
    ensures SplitPrefix(s, a + [k]) == (cs, rest)
  {
    assert (a + [k])[..|a|] == a;
  }

  /** The search for `k` records in the text of at least `k` well-formed
      records: it matches their text at the very start. */
  lemma ChunkFound(left: seq<Record>, k: nat, rest: string, e: nat)
    requires AllWellFormed(left) && k <= |left| && rest == RenderAll(left)
    requires e == |RenderAll(left[..k])|
    ensures ChunkSearch(rest, k) == Some((0, e)) && e <= |rest|
    ensures rest[0..e] == RenderAll(left[..k]) && rest[e..] == RenderAll(left[k..])
  {
    SearchRendered(left, k);
    RenderAllCut(left, k);
  }

  /** A chunk holding the text of well-formed records contributes exactly
      those records. */
  lemma ChunkRecords(cs: seq<string>, c: string, pre: seq<Record>, sub: seq<Record>)
    requires ExtractAll(cs) == pre && AllWellFormed(sub) && c == RenderAll(sub)
    ensures ExtractAll(cs + [c]) == pre + sub
  {
    ExtractRoundTrip(sub);
    ExtractAllSnoc(cs, c);
  }

  /** The search for `k` more records when there are that many left, with the
      records already consumed cut off: it matches their text at the start. */
  lemma ChunkFoundAt(rs: seq<Record>, t: nat, k: nat, rest: string, e: nat)
    requires AllWellFormed(rs) && t + k <= |rs|
    requires rest == RenderAll(rs[t..])
    requires e == |RenderAll(rs[t..t + k])|
    ensures ChunkSearch(rest, k) == Some((0, e)) && e <= |rest|
    ensures rest[0..e] == RenderAll(rs[t..t + k]) && rest[e..] == RenderAll(rs[t + k..])
  {
    var left := rs[t..];
    AllWellFormedSuffix(rs, t);
    assert left[..k] == rs[t..t + k];
    assert left[k..] == rs[t + k..];
    ChunkFound(left, k, rest, e);
  }

  /** The search for `k` more records when there are that many left: the
      chunk is their text, and the records found so far grow by exactly them. */
  lemma ChunkOfRendered(rs: seq<Record>, t: nat, k: nat, cs: seq<string>, rest: string, e: nat)
    requires AllWellFormed(rs) && t + k <= |rs|
    requires rest == RenderAll(rs[t..]) && ExtractAll(cs) == rs[..t]
    requires e == |RenderAll(rs[t..t + k])|
    ensures ChunkSearch(rest, k) == Some((0, e)) && e <= |rest|
    ensures rest[e..] == RenderAll(rs[t + k..])
    ensures ExtractAll(cs + [rest[0..e]]) == rs[..t + k]
  {
    ChunkFoundAt(rs, t, k, rest, e);
    ChunkGrows(rs, t, k, cs, rest[0..e]);
  }

  /** The text of the next `k` records, as a chunk, adds exactly them. */
  lemma ChunkGrows(rs: seq<Record>, t: nat, k: nat, cs: seq<string>, c: string)
    requires AllWellFormed(rs) && t + k <= |rs| && ExtractAll(cs) == rs[..t]
    requires c == RenderAll(rs[t..t + k])
    ensures ExtractAll(cs + [c]) == rs[..t + k]
  {
    AllWellFormedSlice(rs, t, t + k);
    SliceJoin(rs, t, t + k);
    ChunkRecords(cs, c, rs[..t], rs[t..t + k]);
  }

  /** The search for more records than are left misses. */
  lemma ChunkPastRendered(rs: seq<Record>, t: nat, k: nat, rest: string)
    requires AllWellFormed(rs) && t <= |rs| < t + k
    requires rest == RenderAll(rs[t..])
    ensures ChunkSearch(rest, k) == None
  {
    AllWellFormedSuffix(rs, t);
    RenderAllNewlines(rs[t..]);
    SearchMissesShortText(rest, k);
  }

  /** Splitting the text of well-formed records: the chunks hold, in order,
      exactly the records the searches consume, and the buffer keeps the text
      of the rest. */
  lemma {:induction false} SplitRendered(rs: seq<Record>, sizes: seq<nat>)
    requires AllWellFormed(rs)
    ensures SplitPrefix(RenderAll(rs), sizes).1 == RenderAll(rs[Taken(sizes, |rs|)..])
    ensures ExtractAll(SplitPrefix(RenderAll(rs), sizes).0) == rs[..Taken(sizes, |rs|)]
  {
    if sizes == [] {
      assert rs[0..] == rs;
    } else {
      var a := sizes[..|sizes| - 1];
      var k := sizes[|sizes| - 1];
      assert sizes == a + [k];
      SplitRendered(rs, a);
      if Taken(a, |rs|) + k <= |rs| {
        SplitRenderedHit(rs, a, k);
      } else {
        SplitRenderedMiss(rs, a, k);
      }
    }
  }

  /** One more search over the text of records, when enough are left. */
  lemma SplitRenderedHit(rs: seq<Record>, a: seq<nat>, k: nat)
    requires AllWellFormed(rs) && Taken(a, |rs|) + k <= |rs|
    requires SplitPrefix(RenderAll(rs), a).1 == RenderAll(rs[Taken(a, |rs|)..])
    requires ExtractAll(SplitPrefix(RenderAll(rs), a).0) == rs[..Taken(a, |rs|)]
    ensures SplitPrefix(RenderAll(rs), a + [k]).1 == RenderAll(rs[Taken(a + [k], |rs|)..])
    ensures ExtractAll(SplitPrefix(RenderAll(rs), a + [k]).0) == rs[..Taken(a + [k], |rs|)]
  {
    var t := Taken(a, |rs|);
    var t2 := Taken(a + [k], |rs|);
    TakenSnoc(a, k, |rs|, t, t2);
    var s := RenderAll(rs);
    var cs := SplitPrefix(s, a).0;
    var rest := SplitPrefix(s, a).1;
    var e := |RenderAll(rs[t..t2])|;
    ChunkOfRendered(rs, t, k, cs, rest, e);
    HitOn(s, a, k, cs, rest, e, rs, t2);
  }

  lemma HitOn(s: string, a: seq<nat>, k: nat, cs: seq<string>, rest: string, e: nat, rs: seq<Record>, t: nat)
    requires t <= |rs| && SplitPrefix(s, a) == (cs, rest)
    requires ChunkSearch(rest, k) == Some((0, e)) && e <= |rest|
    requires rest[e..] == RenderAll(rs[t..]) && ExtractAll(cs + [rest[0..e]]) == rs[..t]
    ensures SplitPrefix(s, a + [k]).1 == RenderAll(rs[t..])
    ensures ExtractAll(SplitPrefix(s, a + [k]).0) == rs[..t]
  {
    SplitHitStep(s, a, k, cs, rest, 0, e);
  }

  /** One more search over the text of records, when too few are left. */
  lemma SplitRenderedMiss(rs: seq<Record>, a: seq<nat>, k: nat)
    requires AllWellFormed(rs) && Taken(a, |rs|) + k > |rs|
    requires SplitPrefix(RenderAll(rs), a).1 == RenderAll(rs[Taken(a, |rs|)..])
    requires ExtractAll(SplitPrefix(RenderAll(rs), a).0) == rs[..Taken(a, |rs|)]
    ensures SplitPrefix(RenderAll(rs), a + [k]).1 == RenderAll(rs[Taken(a + [k], |rs|)..])
    ensures ExtractAll(SplitPrefix(RenderAll(rs), a + [k]).0) == rs[..Taken(a + [k], |rs|)]
  {
    var s := RenderAll(rs);
    var t := Taken(a, |rs|);
    var cs := SplitPrefix(s, a).0;
    var rest := SplitPrefix(s, a).1;
    TakenSnoc(a, k, |rs|, t, Taken(a + [k], |rs|));
    ChunkPastRendered(rs, t, k, rest);
    SplitMissStep(s, a, k, cs, rest);
  }

  lemma TakenSnoc(a: seq<nat>, k: nat, avail: nat, t: nat, t2: nat)
    requires t == Taken(a, avail) && t2 == Taken(a + [k], avail)
    ensures t2 == if t + k <= avail then t + k else t
  {
    assert (a + [k])[..|a|] == a;
  }

  /** While the sizes fit in the records available, the searches consume
      exactly their sum. */
  lemma {:induction false} TakenSum(sizes: seq<nat>, avail: nat)
    requires Sum(sizes) <= avail
    ensures Taken(sizes, avail) == Sum(sizes)
  {
    if sizes != [] {
      TakenSum(sizes[..|sizes| - 1], avail);
    }
  }

  /** The intended chunk sizes add up to the declared number of samples, one
      size per chunk. */
  lemma IntendedScheduleSum(n: nat, chunks: nat)
    requires chunks > 0
    ensures |IntendedSchedule(ChunkPlan(n, chunks))| == ChunkPlan(n, chunks).count
    ensures Sum(IntendedSchedule(ChunkPlan(n, chunks))) == n
  {
    var p := ChunkPlan(n, chunks);
    SumRepeat(p.chunkSize, chunks);
    if p.hasLast {
      SumSnoc(Repeat(p.chunkSize, chunks), p.lastSize);
    }
  }

  /** Intended splitting keeps every declared record: from the text of at
      least `n` well-formed records, the chunks hold exactly the first `n`,
      in order. */
  lemma IntendedSplitKeepsAll(rs: seq<Record>, n: nat, chunks: nat)
    requires chunks > 0 && n <= |rs|
    requires AllWellFormed(rs)
    ensures ExtractAll(SplitPrefix(RenderAll(rs), IntendedSchedule(ChunkPlan(n, chunks))).0) == rs[..n]
  {
    var sched := IntendedSchedule(ChunkPlan(n, chunks));
    IntendedScheduleSum(n, chunks);
    TakenSum(sched, |rs|);
    SplitRendered(rs, sched);
  }

  /** How many of `n` records the source's searches keep: all of them,
      except when the smaller last chunk is at least as large as a normal
      one, in which case the extra normal-size search takes a normal chunk
      from it and the final search then misses. */
  function SourceKept(n: nat, p: Plan): nat
  {
    if p.hasLast && 0 < p.chunkSize <= p.lastSize && p.lastSize <= n then n - p.lastSize + p.chunkSize else n
  }

  /** How many records the source's searches consume from exactly `n`. */
  lemma SourceTaken(n: nat, chunks: nat)
    requires chunks > 0
    ensures Taken(SourceSchedule(ChunkPlan(n, chunks)), n) == SourceKept(n, ChunkPlan(n, chunks))
  {
    var p := ChunkPlan(n, chunks);
    var x := p.chunkSize;
    var sched := SourceSchedule(p);
    var normal := Repeat(x, chunks);
    SumRepeat(x, chunks);
    TakenSum(normal, n);
    assert sched[..|sched| - 1] == Repeat(x, p.count);
    if p.hasLast {
      assert Repeat(x, chunks + 1) == normal + [x];
      assert (normal + [x])[..chunks] == normal;
    }
  }

  /** Splitting as the source's loop does, on the text of exactly `n`
      well-formed records: the chunks hold the first `SourceKept` records. */
  lemma SourceSplitKeeps(rs: seq<Record>, chunks: nat)
    requires chunks > 0
    requires AllWellFormed(rs)
    ensures var p := ChunkPlan(|rs|, chunks);
      ExtractAll(SplitPrefix(RenderAll(rs), SourceSchedule(p)).0) == rs[..SourceKept(|rs|, p)]
  {
    SplitRendered(rs, SourceSchedule(ChunkPlan(|rs|, chunks)));
    SourceTaken(|rs|, chunks);
  }

  /** The records the source loses: 25 declared samples in 20 chunks make 20
      chunks of one and a last chunk of five; the loop's extra normal search
      takes one of those five and the search for five then finds only four,
      so just 21 records reach the output. */
  lemma SourceSplitLosesRecords(rs: seq<Record>)
    requires |rs| == 25 && AllWellFormed(rs)
    ensures ChunkPlan(25, 20) == Plan(1, 5, true, 21)
    ensures ExtractAll(SplitPrefix(RenderAll(rs), SourceSchedule(ChunkPlan(25, 20))).0) == rs[..21]
    ensures ExtractAll(SplitPrefix(RenderAll(rs), IntendedSchedule(ChunkPlan(25, 20))).0) == rs
  {
    SourceSplitKeeps(rs, 20);
    IntendedSplitKeepsAll(rs, 25, 20);
    assert rs[..25] == rs;
  }

  // ---------------------------------------------------------------------
  // The loop as written.

  /** Outcome of the loop as written: `NameError` when it uses the
      chunk pattern before anything has bound it. */
  datatype SplitOutcome = NameError | Split(chunks: seq<string>, rest: string)

  /** Iterations `i` .. `count` of the loop as written. `bound` is the chunk
      size of the compiled pattern currently bound to `progChunk`, if any:
      only the branch for the smaller last chunk binds it, and the branch for
      normal chunks uses whatever is bound. */
  function LoopAsWritten(s: string, p: Plan, i: nat, bound: Option<nat>, chunks: seq<string>): (r: SplitOutcome)
    ensures r == NameError <==> i <= p.count && bound.None? && !(p.hasLast && i == p.count)
    ensures r.Split? ==> |chunks| <= |r.chunks| <= |chunks| + (if i <= p.count then p.count + 1 - i else 0)
    decreases p.count + 1 - i
  {
    if i > p.count then Split(chunks, s)
    else
      var size := if p.hasLast && i == p.count then Some(p.lastSize) else bound;
      match size
      case None => NameError
      case Some(k) =>
        match ChunkSearch(s, k)
        case None => LoopAsWritten(s, p, i + 1, size, chunks)
        case Some((a, e)) => LoopAsWritten(s[e..], p, i + 1, size, chunks + [s[a..e]])
  }

  /** The loop as written always fails: its first iteration is a normal
      chunk, and nothing has bound the pattern yet. */
  lemma LoopAsWrittenFails(s: string, n: nat, chunks: nat)
    requires chunks > 0
    ensures LoopAsWritten(s, ChunkPlan(n, chunks), 0, None, []) == NameError
  {
  }

  /** Had `progChunk` been bound to the normal size before the loop, the
      written loop would search exactly `SourceSchedule`: its chunks and its
      remaining buffer are those of `SplitPrefix` over that schedule. */
  lemma LoopAsWrittenSchedule(s: string, p: Plan)
    ensures LoopAsWritten(s, p, 0, Some(p.chunkSize), []) ==
      Split(SplitPrefix(s, SourceSchedule(p)).0, SplitPrefix(s, SourceSchedule(p)).1)
  {
    assert SourceSchedule(p)[..0] == [];
    LoopAsWrittenFrom(s, p, 0, Some(p.chunkSize));
  }

  /** The loop from iteration `i` on, entered with the chunks and buffer
      `SplitPrefix` leaves after the first `i` sizes of the schedule. */
  lemma {:induction false} LoopAsWrittenFrom(s: string, p: Plan, i: nat, bound: Option<nat>)
    requires i <= p.count + 1
    requires i <= p.count ==> bound == Some(p.chunkSize)
    ensures var cur := SplitPrefix(s, SourceSchedule(p)[..i]);
      LoopAsWritten(cur.1, p, i, bound, cur.0) ==
      Split(SplitPrefix(s, SourceSchedule(p)).0, SplitPrefix(s, SourceSchedule(p)).1)
    decreases p.count + 1 - i
  {
    var sched := SourceSchedule(p);
    if i > p.count {
      assert sched[..i] == sched;
    } else {
      assert sched[..i + 1][..i] == sched[..i];
      var next := if p.hasLast && i == p.count then Some(p.lastSize) else bound;
      assert next == Some(sched[i]);
      LoopAsWrittenFrom(s, p, i + 1, next);
    }
  }

  /** A record whose MWS sub-block is one line short, followed by a whole
      record: the unit read at the short record takes the next record's
      header line as its last line, and the unit after it would start at
      that record's data line. So no chunk of two or more units starts at
      the short record, and the search passes over it. */
  lemma ShortMwsBreaksChunk(r: Record, r2: Record, rest: string, k: nat)
    requires AllLines(Lines(r)) && IsMetHeader(r.metHeader)
    requires IsApertureMarker(r.las1Start, '1') && |r.las1| == SubBlockLines
    requires IsApertureMarker(r.las2Start, '2') && |r.las2| == SubBlockLines
    requires IsMwsMarker(r.mwsStart) && |r.mws| == SubBlockLines - 1
    requires WellFormed(r2) && !IsMetHeader(r2.metData) && k >= 2
    ensures UnitsAt(Render(r) + "\n" + Render(r2) + "\n" + rest, 0, k) == None
    ensures ChunkSearch(Render(r) + "\n" + Render(r2) + "\n" + rest, k)
         == ChunkFrom(Render(r) + "\n" + Render(r2) + "\n" + rest, k, 1)
  {
    var s := Render(r) + "\n" + Render(r2) + "\n" + rest;
    var h := r2.metHeader;
    var l2 := Lines(r2);
    assert IsLine(l2[0]);
    ShortMwsCompleted(r, h);
    var taken := r.(mws := r.mws + [h]);
    JoinLinesFront(l2);
    var t := JoinLines(l2[1..]) + "\n" + rest;
    assert s == Render(taken) + "\n" + t;
    assert s[0..] == s;
    var e := |Render(taken)| + 1;
    UnitRendered(s, 0, taken, t, e);
    DataLineNoUnit(s, e, r2, "\n" + rest);
  }

  /** Text that starts with a record's data line is not a unit. */
  lemma DataLineNoUnit(s: string, e: nat, r2: Record, tail: string)
    requires e <= |s| && WellFormed(r2) && !IsMetHeader(r2.metData)
    requires s[e..] == JoinLines(Lines(r2)[1..]) + tail && (tail == [] || tail[0] == '\n')
    ensures UnitAt(s, e) == None
  {
    var ls := Lines(r2)[1..];
    assert ls[0] == r2.metData;
    JoinLinesFront(ls);
    var first := [ls[0]];
    assert s[e..] == JoinLines(first) + ("\n" + JoinLines(ls[1..]) + tail);
    assert AllLines(first) by { assert IsLine(Lines(r2)[1]); }
    ReadLinesPrefix(s, e, RecordLines, first, "\n" + JoinLines(ls[1..]) + tail);
  }
}
