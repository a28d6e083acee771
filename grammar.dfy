/** The composite-record grammar `progBlock` (MWSC_RAW_DataParse.py:96) as an
    explicit line recognizer. Every group of that pattern is made of whole
    lines (`.+` never crosses a line feed), so a match anchored at the start
    of the buffer is exactly: 65 non-empty lines separated by line feeds,
    whose lines 0, 2, 23 and 44 have the shapes of the four marker lines. */
module Grammar {
  import opened Base

  /** A line as `.+` sees it: non-empty and free of line feeds. */
  predicate IsLine(l: string)
  {
    |l| > 0 && '\n' !in l
  }

  predicate AllLines(ls: seq<string>)
  {
    forall i :: 0 <= i < |ls| ==> IsLine(ls[i])
  }

  /** `# Ye.+` */
  predicate IsMetHeader(l: string)
  {
    |l| >= 5 && l[..4] == "# Ye"
  }

  /** `w` occurs in `l` at offset `k`. */
  predicate OccursAt(l: string, k: nat, w: string)
  {
    k + |w| <= |l| && l[k..k + |w|] == w
  }

  /** `# 1000.+Aperture d.+` */
  predicate IsApertureMarker(l: string, d: char)
  {
    |l| > 6 && l[..6] == "# 1000"
    && exists k: nat :: 7 <= k && k + 10 < |l| && OccursAt(l, k, "Aperture " + [d])
  }

  /** `# 1000 MWS.+` */
  predicate IsMwsMarker(l: string)
  {
    |l| >= 11 && l[..10] == "# 1000 MWS"
  }

  /** Number of sample lines in each instrument sub-block. */
  const SubBlockLines: nat := 20
  /** Lines of one composite record: header, data, and three marked sub-blocks. */
  const RecordLines: nat := 65

  /** One composite record, line by line, as the named groups of `progBlock` hold it. */
  datatype Record = Record(
    metHeader: string, metData: string,
    las1Start: string, las1: seq<string>,
    las2Start: string, las2: seq<string>,
    mwsStart: string, mws: seq<string>)

  function Lines(r: Record): seq<string>
  {
    [r.metHeader, r.metData, r.las1Start] + r.las1 + [r.las2Start] + r.las2 + [r.mwsStart] + r.mws
  }

  /** The shape `progBlock` accepts. */
  predicate WellFormed(r: Record)
  {
    AllLines(Lines(r))
    && IsMetHeader(r.metHeader)
    && IsApertureMarker(r.las1Start, '1') && |r.las1| == SubBlockLines
    && IsApertureMarker(r.las2Start, '2') && |r.las2| == SubBlockLines
    && IsMwsMarker(r.mwsStart) && |r.mws| == SubBlockLines
  }

  /** The text of a record: its lines joined by line feeds, no final one. */
  function Render(r: Record): string
  {
    JoinLines(Lines(r))
  }

  /** The end of the line starting at `i`: the next line feed, or the end of the buffer. */
  function LineEnd(s: string, i: nat): (j: nat)
    requires i <= |s|
    ensures i <= j <= |s| && '\n' !in s[i..j] && (j == |s| || s[j] == '\n')
    decreases |s| - i
  {
    if i == |s| || s[i] == '\n' then i
    else
      var j := LineEnd(s, i + 1);
      assert s[i..j] == [s[i]] + s[i + 1..j];
      j
  }

  /** A line that stops where the text shows a line feed (or the end) stops there. */
  lemma {:induction false} LineEndAt(s: string, i: nat, k: nat)
    requires i <= k <= |s| && '\n' !in s[i..k] && (k == |s| || s[k] == '\n')
    ensures LineEnd(s, i) == k
    decreases k - i
  {
    if i < k {
      assert s[i] == s[i..k][0];
      assert s[i + 1..k] == s[i..k][1..];
      LineEndAt(s, i + 1, k);
    }
  }

  /** Reads `k` non-empty lines at `pos`, separated by single line feeds; the
      result ends where the last line ends (before its line feed, if any). */
  function ReadLines(s: string, pos: nat, k: nat): (r: Option<(seq<string>, nat)>)
    requires pos <= |s| && k >= 1
    ensures r.Some? ==> |r.value.0| == k && pos < r.value.1 <= |s|
    decreases |s| - pos
  {
    var e := LineEnd(s, pos);
    if e == pos then None
    else if k == 1 then Some(([s[pos..e]], e))
    else if e == |s| then None
    else
      match ReadLines(s, e + 1, k - 1)
      case None => None
      case Some((ls, end)) => Some(([s[pos..e]] + ls, end))
  }

  /** What `ReadLines` reads is really there: `k` lines that, joined, are the
      text between the start and the end it reports, the end being a line
      feed or the end of the buffer. */
  lemma {:induction false} ReadLinesSound(s: string, pos: nat, k: nat)
    requires pos <= |s| && k >= 1
    ensures ReadLines(s, pos, k).Some? ==>
      var (ls, end) := ReadLines(s, pos, k).value;
      AllLines(ls) && s[pos..end] == JoinLines(ls) && (end == |s| || s[end] == '\n')
    decreases k
  {
    var e := LineEnd(s, pos);
    if e != pos && k > 1 && e < |s| {
      ReadLinesSound(s, e + 1, k - 1);
      var r := ReadLines(s, e + 1, k - 1);
      if r.Some? {
        var (ls, end) := r.value;
        assert ([s[pos..e]] + ls)[1..] == ls;
        assert s[pos..end] == s[pos..e] + "\n" + s[e + 1..end];
      }
    }
  }

  /** Recognizes one record at the very start of `s` (`progBlock.match`);
      on success also gives the offset where the match ends. */
  function MatchRecord(s: string): (m: Option<(Record, nat)>)
    ensures m.Some? ==> 0 < m.value.1 <= |s|
  {
    match ReadLines(s, 0, RecordLines)
    case None => None
    case Some((ls, end)) =>
      if IsMetHeader(ls[0]) && IsApertureMarker(ls[2], '1')
         && IsApertureMarker(ls[23], '2') && IsMwsMarker(ls[44])
      then Some((FromLines(ls), end))
      else None
  }

  /** A match is a well-formed record: the text up to the match end is the
      record's 65 lines, and the match stops at a line feed or at the end of
      the buffer. */
  lemma MatchRecordSound(s: string)
    ensures MatchRecord(s).Some? ==>
      var (r, end) := MatchRecord(s).value;
      WellFormed(r) && s[..end] == Render(r) && (end == |s| || s[end] == '\n')
  {
    ReadLinesSound(s, 0, RecordLines);
  }

  /** Cuts 65 lines into the groups of one record. */
  function FromLines(ls: seq<string>): (r: Record)
    requires |ls| == RecordLines
    ensures Lines(r) == ls
    ensures r.metHeader == ls[0] && r.las1Start == ls[2] && r.las2Start == ls[23] && r.mwsStart == ls[44]
    ensures |r.las1| == SubBlockLines && |r.las2| == SubBlockLines && |r.mws| == SubBlockLines
  {
    var r := Record(ls[0], ls[1], ls[2], ls[3..23], ls[23], ls[24..44], ls[44], ls[45..]);
    assert ls == ls[..3] + ls[3..23] + [ls[23]] + ls[24..44] + [ls[44]] + ls[45..];
    assert ls[..3] == [ls[0], ls[1], ls[2]];
    r
  }

  /** A line followed by a line feed (or by nothing) is read whole. */
  lemma LineAtFront(s: string, pos: nat, l: string, tail: string)
    requires pos <= |s| && IsLine(l) && s[pos..] == l + tail && (tail == [] || tail[0] == '\n')
    ensures LineEnd(s, pos) == pos + |l| && s[pos..pos + |l|] == l && s[pos + |l|..] == tail
  {
    assert s[pos..][..|l|] == l;
    assert s[pos..][|l|..] == tail;
    LineEndAt(s, pos, pos + |l|);
  }

  /** The first line of joined lines, and what follows it. */
  lemma JoinLinesFront(ls: seq<string>)
    requires |ls| >= 2
    ensures JoinLines(ls) == ls[0] + ("\n" + JoinLines(ls[1..]))
  {
  }

  /** One step of `ReadLines` once the first line is known: the last line. */
  lemma ReadLastLine(s: string, pos: nat, l: string)
    requires pos + |l| <= |s| && |l| > 0 && LineEnd(s, pos) == pos + |l| && s[pos..pos + |l|] == l
    ensures ReadLines(s, pos, 1) == Some(([l], pos + |l|))
  {
  }

  /** One step of `ReadLines` once the first line is known: more lines follow
      and are read. */
  lemma ReadNextLines(s: string, pos: nat, k: nat, l: string, next: nat, more: seq<string>, end: nat)
    requires pos + |l| < |s| && |l| > 0 && LineEnd(s, pos) == pos + |l| && s[pos..pos + |l|] == l && k >= 2
    requires next == pos + |l| + 1 && ReadLines(s, next, k - 1) == Some((more, end))
    ensures ReadLines(s, pos, k) == Some(([l] + more, end))
  {
  }

  /** One step of `ReadLines` once the first line is known: the lines after
      it cannot be read. */
  lemma ReadNextLinesFail(s: string, pos: nat, k: nat, l: string, next: nat)
    requires pos + |l| < |s| && |l| > 0 && LineEnd(s, pos) == pos + |l| && k >= 2
    requires next == pos + |l| + 1 && ReadLines(s, next, k - 1) == None
    ensures ReadLines(s, pos, k) == None
  {
  }

  /** One step of `ReadLines` once the first line is known: it ends the buffer too early. */
  lemma ReadLinesShort(s: string, pos: nat, k: nat, l: string)
    requires pos + |l| == |s| && LineEnd(s, pos) == pos + |l| && k >= 2
    ensures ReadLines(s, pos, k) == None
  {
  }

  /** The first of several joined lines is read whole, and what follows it is
      the rest of the lines (after one line feed) or the tail. */
  lemma FirstJoinedLine(s: string, pos: nat, ls: seq<string>, tail: string)
    requires pos <= |s| && |ls| >= 1 && AllLines(ls)
    requires s[pos..] == JoinLines(ls) + tail && (tail == [] || tail[0] == '\n')
    ensures |ls[0]| > 0 && pos + |ls[0]| <= |s| && LineEnd(s, pos) == pos + |ls[0]|
    ensures s[pos..pos + |ls[0]|] == ls[0]
    ensures |ls| == 1 ==> s[pos + |ls[0]|..] == tail
    ensures |ls| > 1 ==> pos + |ls[0]| < |s| && s[pos + |ls[0]| + 1..] == JoinLines(ls[1..]) + tail
  {
    var l := ls[0];
    assert IsLine(l);
    if |ls| == 1 {
      LineAtFront(s, pos, l, tail);
    } else {
      var rest := JoinLines(ls[1..]);
      JoinLinesFront(ls);
      assert s[pos..] == l + ("\n" + rest + tail);
      LineAtFront(s, pos, l, "\n" + rest + tail);
    }
  }

  /** Reading lines back from their joined text gives the same lines. */
  lemma {:induction false} ReadLinesJoined(s: string, pos: nat, ls: seq<string>, tail: string)
    requires pos <= |s| && |ls| >= 1 && AllLines(ls)
    requires s[pos..] == JoinLines(ls) + tail && (tail == [] || tail[0] == '\n')
    ensures ReadLines(s, pos, |ls|) == Some((ls, pos + |JoinLines(ls)|))
    decreases |ls|
  {
    if |ls| == 1 {
      ReadOneJoined(s, pos, ls, tail);
    } else {
      var next := NextJoined(s, pos, ls, tail);
      ReadLinesJoined(s, next, ls[1..], tail);
      ReadMoreJoined(s, pos, ls, tail, next);
    }
  }

  /** Where the second of several joined lines starts. */
  lemma NextJoined(s: string, pos: nat, ls: seq<string>, tail: string) returns (next: nat)
    requires pos <= |s| && |ls| >= 2 && AllLines(ls)
    requires s[pos..] == JoinLines(ls) + tail && (tail == [] || tail[0] == '\n')
    ensures next == pos + |ls[0]| + 1 && next <= |s|
    ensures s[next..] == JoinLines(ls[1..]) + tail && AllLines(ls[1..])
  {
    FirstJoinedLine(s, pos, ls, tail);
    next := pos + |ls[0]| + 1;
  }

  lemma ReadOneJoined(s: string, pos: nat, ls: seq<string>, tail: string)
    requires pos <= |s| && |ls| == 1 && AllLines(ls)
    requires s[pos..] == JoinLines(ls) + tail && (tail == [] || tail[0] == '\n')
    ensures ReadLines(s, pos, |ls|) == Some((ls, pos + |JoinLines(ls)|))
  {
    FirstJoinedLine(s, pos, ls, tail);
    assert ls == [ls[0]];
    ReadLastLine(s, pos, ls[0]);
  }

  lemma ReadMoreJoined(s: string, pos: nat, ls: seq<string>, tail: string, next: nat)
    requires pos <= |s| && |ls| >= 2 && AllLines(ls)
    requires s[pos..] == JoinLines(ls) + tail && (tail == [] || tail[0] == '\n')
    requires next == pos + |ls[0]| + 1 && next <= |s|
    requires ReadLines(s, next, |ls| - 1) == Some((ls[1..], next + |JoinLines(ls[1..])|))
    ensures ReadLines(s, pos, |ls|) == Some((ls, pos + |JoinLines(ls)|))
  {
    FirstJoinedLine(s, pos, ls, tail);
    ReadNextLines(s, pos, |ls|, ls[0], next, ls[1..], next + |JoinLines(ls[1..])|);
    JoinedLength(ls);
    assert [ls[0]] + ls[1..] == ls;
  }

  lemma JoinedLength(ls: seq<string>)
    requires |ls| >= 2
    ensures |JoinLines(ls)| == |ls[0]| + 1 + |JoinLines(ls[1..])|
  {
  }

  /** The first line read is the line at the start. */
  lemma ReadFirstLine(s: string, pos: nat, k: nat, l: string)
    requires pos + |l| <= |s| && |l| > 0 && LineEnd(s, pos) == pos + |l| && s[pos..pos + |l|] == l && k >= 1
    ensures ReadLines(s, pos, k).Some? ==> ReadLines(s, pos, k).value.0[..1] == [l]
  {
  }

  /** Whatever `ReadLines` returns begins with the lines the text begins with. */
  lemma {:induction false} ReadLinesPrefix(s: string, pos: nat, k: nat, ls: seq<string>, tail: string)
    requires pos <= |s| && 1 <= |ls| <= k && AllLines(ls)
    requires s[pos..] == JoinLines(ls) + tail && (tail == [] || tail[0] == '\n')
    ensures ReadLines(s, pos, k).Some? ==> ReadLines(s, pos, k).value.0[..|ls|] == ls
    decreases |ls|
  {
    if |ls| == 1 {
      PrefixOne(s, pos, k, ls, tail);
    } else {
      var next := NextJoined(s, pos, ls, tail);
      ReadLinesPrefix(s, next, k - 1, ls[1..], tail);
      PrefixMore(s, pos, k, ls, tail, next);
    }
  }

  lemma PrefixOne(s: string, pos: nat, k: nat, ls: seq<string>, tail: string)
    requires pos <= |s| && 1 == |ls| <= k && AllLines(ls)
    requires s[pos..] == JoinLines(ls) + tail && (tail == [] || tail[0] == '\n')
    ensures ReadLines(s, pos, k).Some? ==> ReadLines(s, pos, k).value.0[..|ls|] == ls
  {
    FirstJoinedLine(s, pos, ls, tail);
    ReadFirstLine(s, pos, k, ls[0]);
    assert ls == [ls[0]];
  }

  lemma PrefixMore(s: string, pos: nat, k: nat, ls: seq<string>, tail: string, next: nat)
    requires pos <= |s| && 2 <= |ls| <= k && AllLines(ls)
    requires s[pos..] == JoinLines(ls) + tail && (tail == [] || tail[0] == '\n')
    requires next == pos + |ls[0]| + 1 && next <= |s|
    requires ReadLines(s, next, k - 1).Some? ==> ReadLines(s, next, k - 1).value.0[..|ls| - 1] == ls[1..]
    ensures ReadLines(s, pos, k).Some? ==> ReadLines(s, pos, k).value.0[..|ls|] == ls
  {
    FirstJoinedLine(s, pos, ls, tail);
    var r := ReadLines(s, next, k - 1);
    if r.Some? {
      ReadNextLines(s, pos, k, ls[0], next, r.value.0, r.value.1);
      PrefixCons(ls[0], r.value.0, ls);
    } else {
      ReadNextLinesFail(s, pos, k, ls[0], next);
    }
  }

  lemma PrefixCons(l: string, more: seq<string>, ls: seq<string>)
    requires 1 < |ls| <= |more| + 1 && ls[0] == l && more[..|ls| - 1] == ls[1..]
    ensures ([l] + more)[..|ls|] == ls
  {
    assert ([l] + more)[..|ls|] == [l] + more[..|ls| - 1];
  }

  /** Text holding fewer lines than asked for cannot be read. */
  lemma {:induction false} ReadLinesTooFew(s: string, pos: nat, k: nat, ls: seq<string>)
    requires pos <= |s| && 1 <= |ls| < k && AllLines(ls)
    requires s[pos..] == JoinLines(ls)
    ensures ReadLines(s, pos, k) == None
    decreases |ls|
  {
    assert s[pos..] == JoinLines(ls) + [];
    if |ls| == 1 {
      FirstJoinedLine(s, pos, ls, []);
      ReadLinesShort(s, pos, k, ls[0]);
    } else {
      var next := NextJoined(s, pos, ls, []);
      assert s[next..] == JoinLines(ls[1..]) by {
        assert s[next..] == JoinLines(ls[1..]) + [];
      }
      ReadLinesTooFew(s, next, k - 1, ls[1..]);
      TooFewMore(s, pos, k, ls, next);
    }
  }

  lemma TooFewMore(s: string, pos: nat, k: nat, ls: seq<string>, next: nat)
    requires pos <= |s| && 2 <= |ls| < k && AllLines(ls)
    requires s[pos..] == JoinLines(ls) + []
    requires next == pos + |ls[0]| + 1 && next <= |s| && ReadLines(s, next, k - 1) == None
    ensures ReadLines(s, pos, k) == None
  {
    FirstJoinedLine(s, pos, ls, []);
    ReadNextLinesFail(s, pos, k, ls[0], next);
  }

  /** Every well-formed record is recognized, with the match ending at the
      end of its text, whatever follows it on the next lines. */
  lemma MatchRendered(r: Record, rest: string)
    requires WellFormed(r) && (rest == [] || rest[0] == '\n')
    ensures MatchRecord(Render(r) + rest) == Some((r, |Render(r)|))
  {
    var s := Render(r) + rest;
    var ls := Lines(r);
    assert s[0..] == s;
    ReadLinesJoined(s, 0, ls, rest);
    assert ls[0] == r.metHeader && ls[2] == r.las1Start && ls[23] == r.las2Start && ls[44] == r.mwsStart;
    LinesDetermine(FromLines(ls), r);
  }

  /** A record is determined by its lines once the sub-block sizes are fixed. */
  lemma LinesDetermine(a: Record, b: Record)
    requires |a.las1| == |b.las1| && |a.las2| == |b.las2| && |a.mws| == |b.mws|
    requires Lines(a) == Lines(b)
    ensures a == b
  {
    var n1, n2 := |a.las1|, |a.las2|;
    var la, lb := Lines(a), Lines(b);
    assert a.las1 == la[3..3 + n1] == lb[3..3 + n1] == b.las1;
    assert a.las2Start == la[3 + n1] == lb[3 + n1] == b.las2Start;
    assert a.las2 == la[4 + n1..4 + n1 + n2] == lb[4 + n1..4 + n1 + n2] == b.las2;
    assert a.mwsStart == la[4 + n1 + n2] == lb[4 + n1 + n2] == b.mwsStart;
    assert a.mws == la[5 + n1 + n2..] == lb[5 + n1 + n2..] == b.mws;
    assert la[0] == lb[0] && la[1] == lb[1] && la[2] == lb[2];
  }

  /** A sub-block one line short (19 sample lines in aperture 1) is not a
      record: the line where the aperture-2 marker must stand is a sample line. */
  lemma ShortSubBlockRejected(r: Record, rest: string)
    requires AllLines(Lines(r)) && |r.las1| == SubBlockLines - 1
    requires |r.las2| == SubBlockLines && |r.mws| == SubBlockLines
    requires !IsApertureMarker(r.las2[0], '2')
    requires rest == [] || rest[0] == '\n'
    ensures MatchRecord(Render(r) + rest) == None
  {
    var s := Render(r) + rest;
    assert s[0..] == s;
    ReadLinesPrefix(s, 0, RecordLines, Lines(r), rest);
    assert Lines(r)[23] == r.las2[0];
  }

  /** A record cut short at the end of the buffer (its wind sub-block has only
      19 lines) is not matched. */
  lemma TruncatedRecordRejected(r: Record)
    requires AllLines(Lines(r)) && |r.las1| == SubBlockLines && |r.las2| == SubBlockLines
    requires |r.mws| == SubBlockLines - 1
    ensures MatchRecord(Render(r)) == None
  {
    var s := Render(r);
    assert s[0..] == s;
    ReadLinesTooFew(s, 0, RecordLines, Lines(r));
  }
  /** A second sub-block one line short (19 sample lines in aperture 2) is
      not a record either: the line where the MWS marker must stand is a
      sample line. */
  lemma ShortLas2Rejected(r: Record, rest: string)
    requires AllLines(Lines(r)) && |r.las1| == SubBlockLines
    requires |r.las2| == SubBlockLines - 1 && |r.mws| == SubBlockLines
    requires !IsMwsMarker(r.mws[0])
    requires rest == [] || rest[0] == '\n'
    ensures MatchRecord(Render(r) + rest) == None
  {
    var s := Render(r) + rest;
    assert s[0..] == s;
    ReadLinesPrefix(s, 0, RecordLines, Lines(r), rest);
    assert Lines(r)[44] == r.mws[0];
  }

  /** A record whose MWS sub-block has only 19 lines, followed by another
      record, is matched all the same: `(.+\n){19}.+` takes the next record's
      `# Ye` header as its twentieth MWS line, whatever follows. */
  lemma ShortMwsTakesNextHeader(r: Record, r2: Record, rest: string)
    requires AllLines(Lines(r)) && IsMetHeader(r.metHeader)
    requires IsApertureMarker(r.las1Start, '1') && |r.las1| == SubBlockLines
    requires IsApertureMarker(r.las2Start, '2') && |r.las2| == SubBlockLines
    requires IsMwsMarker(r.mwsStart) && |r.mws| == SubBlockLines - 1
    requires WellFormed(r2)
    ensures MatchRecord(Render(r) + "\n" + Render(r2) + rest) ==
      Some((r.(mws := r.mws + [r2.metHeader]), |Render(r)| + 1 + |r2.metHeader|))
  {
    var taken := r.(mws := r.mws + [r2.metHeader]);
    var l2 := Lines(r2);
    assert Lines(taken) == Lines(r) + [r2.metHeader];
    assert AllLines(Lines(taken)) by {
      assert l2[0] == r2.metHeader;
    }
    JoinLinesSnoc(Lines(r), r2.metHeader);
    JoinLinesFront(l2);
    var tail := "\n" + JoinLines(l2[1..]) + rest;
    assert Render(r) + "\n" + Render(r2) + rest == Render(taken) + tail;
    MatchRendered(taken, tail);
  }

  /** The same record as the last unit of a cut chunk: the chunk pattern's
      65-line unit ends with the next record's header line `h`, which the
      recognizer takes as the twentieth MWS line, up to the chunk's final
      line feed. */
  lemma ShortMwsAtChunkEnd(r: Record, h: string)
    requires AllLines(Lines(r)) && IsMetHeader(r.metHeader)
    requires IsApertureMarker(r.las1Start, '1') && |r.las1| == SubBlockLines
    requires IsApertureMarker(r.las2Start, '2') && |r.las2| == SubBlockLines
    requires IsMwsMarker(r.mwsStart) && |r.mws| == SubBlockLines - 1
    requires IsLine(h)
    ensures MatchRecord(Render(r) + "\n" + h + "\n") ==
      Some((r.(mws := r.mws + [h]), |Render(r)| + 1 + |h|))
  {
    var taken := r.(mws := r.mws + [h]);
    assert Lines(taken) == Lines(r) + [h];
    JoinLinesSnoc(Lines(r), h);
    assert Render(r) + "\n" + h + "\n" == Render(taken) + "\n";
    MatchRendered(taken, "\n");
  }

  /** A record whose MWS sub-block is one line short, with one more line
      appended to that sub-block, is well formed, and its text is the short
      record's text, a line feed and that line. */
  lemma ShortMwsCompleted(r: Record, h: string)
    requires AllLines(Lines(r)) && IsMetHeader(r.metHeader)
    requires IsApertureMarker(r.las1Start, '1') && |r.las1| == SubBlockLines
    requires IsApertureMarker(r.las2Start, '2') && |r.las2| == SubBlockLines
    requires IsMwsMarker(r.mwsStart) && |r.mws| == SubBlockLines - 1
    requires IsLine(h)
    ensures WellFormed(r.(mws := r.mws + [h]))
    ensures Render(r.(mws := r.mws + [h])) == Render(r) + "\n" + h
  {
    assert Lines(r.(mws := r.mws + [h])) == Lines(r) + [h];
    JoinLinesSnoc(Lines(r), h);
  }
}
