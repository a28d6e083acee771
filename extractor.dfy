/** The block extractor `sortData` (MWSC_RAW_DataParse.py:29-72): it matches
    one record at a time at the front of the buffer and turns each record
    into one line for each of the four output streams. */
module Extractor {
  import opened Base
  import opened Text
  import opened Grammar

  /** Width of the timestamp cut from the compacted meteorological line. */
  const StampLength: nat := 18

  /** `s[:n]` in Python: the first `n` characters, or all of `s` if shorter. */
  function Take(s: string, n: nat): (r: string)
    ensures |r| == (if |s| < n then |s| else n) && r == s[..|r|]
  {
    if |s| <= n then s else s[..n]
  }

  /** The four output streams. */
  datatype Stream = Met | Las1 | Las2 | Mws

  /** The timestamp of a record: `Met[:18]`, where `Met` is the data line
      with all whitespace removed. */
  function Stamp(r: Record): (t: string)
    ensures var m := Strip(r.metData);
      |t| == (if |m| < StampLength then |m| else StampLength) && t == m[..|t|]
  {
    Take(Strip(r.metData), StampLength)
  }

  /** The line a record contributes to a stream: the compacted data line for
      `Met`; for an instrument, the timestamp followed by its sub-block with
      every whitespace run (line feeds included) turned into one comma. */
  function OutLine(r: Record, st: Stream): (l: string)
    ensures |Stamp(r)| < |l| && l[..|Stamp(r)|] == Stamp(r) && l[|l| - 1] == '\n'
  {
    match st
    case Met =>
      var m := Strip(r.metData);
      assert (m + "\n")[..|Stamp(r)|] == m[..|Stamp(r)|];
      m + "\n"
    case Las1 => Stamp(r) + Collapse(JoinLines(r.las1)) + "\n"
    case Las2 => Stamp(r) + Collapse(JoinLines(r.las2)) + "\n"
    case Mws => Stamp(r) + Collapse(JoinLines(r.mws)) + "\n"
  }

  /** The lines a sequence of records contributes to a stream, in order. */
  function OutLines(rs: seq<Record>, st: Stream): (ls: seq<string>)
    ensures |ls| == |rs|
  {
    if rs == [] then [] else OutLines(rs[..|rs| - 1], st) + [OutLine(rs[|rs| - 1], st)]
  }

  lemma {:induction false} OutLinesAt(rs: seq<Record>, st: Stream, i: nat)
    requires i < |rs|
    ensures OutLines(rs, st)[i] == OutLine(rs[i], st)
  {
    if i < |rs| - 1 {
      OutLinesAt(rs[..|rs| - 1], st, i);
    }
  }

  /** The buffer after a match ending at `end`: `data[end+1:]`, which skips
      the line feed after the record (and is empty past the end). */
  function Advance(s: string, end: nat): (t: string)
    requires end <= |s|
    ensures end < |s| ==> s[..end + 1] + t == s
    ensures end == |s| ==> t == []
  {
    if end < |s| then s[end + 1..] else []
  }

  /** The records `sortData` extracts, in order: match at the front,
      advance, repeat until the first non-match. Every one of them has the
      shape of `progBlock`. */
  function ExtractRecords(s: string): (rs: seq<Record>)
    ensures AllWellFormed(rs)
    decreases |s|
  {
    match MatchRecord(s)
    case None => []
    case Some((r, end)) =>
      MatchRecordSound(s);
      var more := ExtractRecords(Advance(s, end));
      assert ([r] + more)[1..] == more;
      [r] + more
  }

  /** Every record of the sequence has the shape of `progBlock`. */
  predicate AllWellFormed(rs: seq<Record>)
  {
    rs == [] || (WellFormed(rs[0]) && AllWellFormed(rs[1..]))
  }

  lemma {:induction false} AllWellFormedAt(rs: seq<Record>)
    ensures AllWellFormed(rs) <==> forall i :: 0 <= i < |rs| ==> WellFormed(rs[i])
  {
    if rs != [] {
      AllWellFormedAt(rs[1..]);
      assert forall i :: 1 <= i < |rs| ==> rs[i] == rs[1..][i - 1];
    }
  }

  lemma AllWellFormedSlice(rs: seq<Record>, i: nat, j: nat)
    requires AllWellFormed(rs) && i <= j <= |rs|
    ensures AllWellFormed(rs[i..j])
  {
    AllWellFormedAt(rs);
    AllWellFormedAt(rs[i..j]);
  }

  lemma AllWellFormedSuffix(rs: seq<Record>, i: nat)
    requires AllWellFormed(rs) && i <= |rs|
    ensures AllWellFormed(rs[i..])
  {
    AllWellFormedSlice(rs, i, |rs|);
    assert rs[i..|rs|] == rs[i..];
  }

  /** `sortData`: returns the four joined streams (LAS1, LAS2, MWS, Met, in
      the source's order) and the number of records extracted (the count
      the source prints). */
  method SortData(data: string) returns (las1: string, las2: string, mws: string, met: string, count: nat)
    ensures count == |ExtractRecords(data)|
    ensures met == Concat(OutLines(ExtractRecords(data), Met))
    ensures las1 == Concat(OutLines(ExtractRecords(data), Las1))
    ensures las2 == Concat(OutLines(ExtractRecords(data), Las2))
    ensures mws == Concat(OutLines(ExtractRecords(data), Mws))
  {
    var rest := data;
    count := 0;
    var tmpMet: seq<string> := [];
    var tmpLas1: seq<string> := [];
    var tmpLas2: seq<string> := [];
    var tmpMws: seq<string> := [];
    ghost var seen: seq<Record> := [];
    while true
      invariant ExtractRecords(data) == seen + ExtractRecords(rest)
      invariant count == |seen|
      invariant tmpMet == OutLines(seen, Met) && tmpLas1 == OutLines(seen, Las1)
      invariant tmpLas2 == OutLines(seen, Las2) && tmpMws == OutLines(seen, Mws)
      decreases |rest|
    {
      var block := MatchRecord(rest);
      if block.None? {
        ExtractStops(data, rest, seen);
        break;
      }
      var r := block.value.0;
      tmpMet := tmpMet + [OutLine(r, Met)];
      tmpLas1 := tmpLas1 + [OutLine(r, Las1)];
      tmpLas2 := tmpLas2 + [OutLine(r, Las2)];
      tmpMws := tmpMws + [OutLine(r, Mws)];
      SortStep(data, rest, seen, r, block.value.1);
      rest := Advance(rest, block.value.1);
      count := count + 1;
      seen := seen + [r];
    }
    las1 := Concat(tmpLas1);
    las2 := Concat(tmpLas2);
    mws := Concat(tmpMws);
    met := Concat(tmpMet);
  }

  /** Where `sortData` stops: the records seen so far are all there are. */
  lemma ExtractStops(data: string, rest: string, seen: seq<Record>)
    requires ExtractRecords(data) == seen + ExtractRecords(rest)
    requires MatchRecord(rest) == None
    ensures seen == ExtractRecords(data)
  {
    assert seen + [] == seen;
  }

  /** What one iteration of `sortData` keeps: the records still to come, and
      each stream's lines, once the matched record joins those seen. */
  lemma SortStep(data: string, rest: string, seen: seq<Record>, r: Record, end: nat)
    requires ExtractRecords(data) == seen + ExtractRecords(rest)
    requires MatchRecord(rest) == Some((r, end))
    ensures end <= |rest| && |Advance(rest, end)| < |rest|
    ensures ExtractRecords(data) == (seen + [r]) + ExtractRecords(Advance(rest, end))
    ensures OutLines(seen + [r], Met) == OutLines(seen, Met) + [OutLine(r, Met)]
    ensures OutLines(seen + [r], Las1) == OutLines(seen, Las1) + [OutLine(r, Las1)]
    ensures OutLines(seen + [r], Las2) == OutLines(seen, Las2) + [OutLine(r, Las2)]
    ensures OutLines(seen + [r], Mws) == OutLines(seen, Mws) + [OutLine(r, Mws)]
  {
    ExtractStep(rest, seen, r, end);
    OutLinesSnoc(seen, r);
  }

  /** One iteration of `sortData`: the matched record joins the records seen
      so far, and the rest come from the advanced buffer. */
  lemma ExtractStep(rest: string, seen: seq<Record>, r: Record, end: nat)
    requires MatchRecord(rest) == Some((r, end))
    ensures seen + ExtractRecords(rest) == (seen + [r]) + ExtractRecords(Advance(rest, end))
  {
    assert ExtractRecords(rest) == [r] + ExtractRecords(Advance(rest, end));
  }

  /** Appending a record appends its line to each stream. */
  lemma OutLinesSnoc(seen: seq<Record>, r: Record)
    ensures forall st :: OutLines(seen + [r], st) == OutLines(seen, st) + [OutLine(r, st)]
  {
    assert (seen + [r])[..|seen|] == seen;
  }

  /** Every output line holds exactly one line feed, at its end: the
      meteorological line has lost all its whitespace, the timestamp is part
      of it, and collapsing leaves no whitespace either. */
  lemma OutLineIsOneLine(r: Record, st: Stream)
    ensures IsTerminatedLine(OutLine(r, st))
  {
    var l := OutLine(r, st);
    var body := l[..|l| - 1];
    assert IsSpace('\n');
    match st {
      case Met => assert body == Strip(r.metData);
      case Las1 => assert body == Stamp(r) + Collapse(JoinLines(r.las1));
      case Las2 => assert body == Stamp(r) + Collapse(JoinLines(r.las2));
      case Mws => assert body == Stamp(r) + Collapse(JoinLines(r.mws));
    }
    assert NoSpace(body);
  }

  /** Each of the four joined streams holds exactly one line per record:
      as many line feeds as records, the last character a line feed. */
  lemma OutLinesLineCount(rs: seq<Record>, st: Stream)
    ensures CountChar(Concat(OutLines(rs, st)), '\n') == |rs|
    ensures rs != [] ==>
      var out := Concat(OutLines(rs, st)); |out| > 0 && out[|out| - 1] == '\n'
  {
    forall i | 0 <= i < |rs|
      ensures IsTerminatedLine(OutLines(rs, st)[i])
    {
      OutLinesAt(rs, st, i);
      OutLineIsOneLine(rs[i], st);
    }
    ConcatLineCount(OutLines(rs, st));
  }

  /** The text of a sequence of records, each followed by a line feed. */
  function RenderAll(rs: seq<Record>): string
  {
    if rs == [] then [] else Render(rs[0]) + "\n" + RenderAll(rs[1..])
  }

  lemma {:induction false} RenderAllAppend(a: seq<Record>, b: seq<Record>)
    ensures RenderAll(a + b) == RenderAll(a) + RenderAll(b)
  {
    if a == [] {
      assert a + b == b;
    } else {
      assert (a + b)[1..] == a[1..] + b;
      RenderAllAppend(a[1..], b);
    }
  }

  /** Extraction stops at the first text that is not a record and keeps
      exactly the records before it: a malformed or truncated record, and
      everything after it, yield nothing. */
  lemma {:induction false} ExtractStopsAtFailure(rs: seq<Record>, t: string)
    requires AllWellFormed(rs)
    requires MatchRecord(t) == None
    ensures ExtractRecords(RenderAll(rs) + t) == rs
  {
    if rs == [] {
      ExtractNoRecord(t);
    } else {
      ExtractFront(rs, t);
      ExtractStopsAtFailure(rs[1..], t);
      assert [rs[0]] + rs[1..] == rs;
    }
  }

  lemma ExtractNoRecord(t: string)
    requires MatchRecord(t) == None
    ensures ExtractRecords(RenderAll([]) + t) == []
  {
    assert RenderAll([]) + t == t;
  }

  lemma ExtractFront(rs: seq<Record>, t: string)
    requires rs != [] && WellFormed(rs[0])
    ensures ExtractRecords(RenderAll(rs) + t) == [rs[0]] + ExtractRecords(RenderAll(rs[1..]) + t)
  {
    RenderAllFront(rs, t);
    ExtractRenderedStep(rs[0], RenderAll(rs[1..]) + t);
  }

  lemma RenderAllFront(rs: seq<Record>, t: string)
    requires rs != []
    ensures RenderAll(rs) + t == Render(rs[0]) + ("\n" + (RenderAll(rs[1..]) + t))
  {
    var a, b := Render(rs[0]), RenderAll(rs[1..]);
    assert RenderAll(rs) == a + "\n" + b;
    AppendAssoc(a, "\n", b + t);
    AppendAssoc(a + "\n", b, t);
  }

  /** A well-formed record's text, a line feed and more text: extraction
      yields the record, then what the rest yields. */
  lemma ExtractRenderedStep(r: Record, after: string)
    requires WellFormed(r)
    ensures ExtractRecords(Render(r) + ("\n" + after)) == [r] + ExtractRecords(after)
  {
    var s := Render(r) + ("\n" + after);
    MatchRendered(r, "\n" + after);
    assert Advance(s, |Render(r)|) == after;
  }

  /** Round trip: extracting from the text of well-formed records, each
      followed by a line feed, gives back exactly those records in order. */
  lemma ExtractRoundTrip(rs: seq<Record>)
    requires AllWellFormed(rs)
    ensures ExtractRecords(RenderAll(rs)) == rs
  {
    assert ReadLines([], 0, RecordLines) == None;
    assert MatchRecord([]) == None;
    ExtractStopsAtFailure(rs, []);
    assert RenderAll(rs) + [] == RenderAll(rs);
  }
  /** A record whose MWS sub-block has only 19 lines swallows the header of
      the record after it (see `ShortMwsTakesNextHeader`); extraction then
      resumes at that record's data line, which is no `# Ye` header, and
      stops. The following record and everything after it are lost. */
  lemma ShortMwsLosesNext(r: Record, r2: Record, rest: string)
    requires AllLines(Lines(r)) && IsMetHeader(r.metHeader)
    requires IsApertureMarker(r.las1Start, '1') && |r.las1| == SubBlockLines
    requires IsApertureMarker(r.las2Start, '2') && |r.las2| == SubBlockLines
    requires IsMwsMarker(r.mwsStart) && |r.mws| == SubBlockLines - 1
    requires WellFormed(r2) && !IsMetHeader(r2.metData)
    ensures ExtractRecords(Render(r) + "\n" + Render(r2) + rest) == [r.(mws := r.mws + [r2.metHeader])]
  {
    var s := Render(r) + "\n" + Render(r2) + rest;
    var end := |Render(r)| + 1 + |r2.metHeader|;
    ShortMwsTakesNextHeader(r, r2, rest);
    var l2 := Lines(r2);
    JoinLinesFront(l2);
    var after := JoinLines(l2[1..]) + rest;
    assert s == (Render(r) + "\n" + r2.metHeader + "\n") + after;
    assert Advance(s, end) == after;
    AfterHeaderNoMatch(r2, rest);
  }

  /** A chunk whose last unit is such a record and the next record's header
      line `h` yields that record, with `h` as its twentieth MWS line, and
      nothing else. */
  lemma ShortMwsChunkEnd(r: Record, h: string)
    requires AllLines(Lines(r)) && IsMetHeader(r.metHeader)
    requires IsApertureMarker(r.las1Start, '1') && |r.las1| == SubBlockLines
    requires IsApertureMarker(r.las2Start, '2') && |r.las2| == SubBlockLines
    requires IsMwsMarker(r.mwsStart) && |r.mws| == SubBlockLines - 1
    requires IsLine(h)
    ensures ExtractRecords(Render(r) + "\n" + h + "\n") == [r.(mws := r.mws + [h])]
  {
    var s := Render(r) + "\n" + h + "\n";
    ShortMwsAtChunkEnd(r, h);
    assert Advance(s, |s| - 1) == [];
    assert MatchRecord([]) == None;
  }

  /** Text that starts with a data line is not a record. */
  lemma AfterHeaderNoMatch(r2: Record, rest: string)
    requires WellFormed(r2) && !IsMetHeader(r2.metData)
    ensures ExtractRecords(JoinLines(Lines(r2)[1..]) + rest) == []
  {
    var ls := Lines(r2)[1..];
    var s := JoinLines(ls) + rest;
    assert ls[0] == r2.metData;
    JoinLinesFront(ls);
    var first := [ls[0]];
    assert s == JoinLines(first) + ("\n" + JoinLines(ls[1..]) + rest);
    assert s[0..] == s;
    assert AllLines(first) by { assert IsLine(Lines(r2)[1]); }
    ReadLinesPrefix(s, 0, RecordLines, first, "\n" + JoinLines(ls[1..]) + rest);
  }
}
