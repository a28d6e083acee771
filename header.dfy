/** The sample-count header (`progNumSample`, MWSC_RAW_DataParse.py:85 and
    159-163) and the chunk sizes derived from it (lines 168-179). */
module Header {
  import opened Base
  import opened Text

  predicate IsDigit(c: char)
  {
    '0' <= c <= '9'
  }

  /** The end of the run of digits starting at `i`. */
  function DigitEnd(s: string, i: nat): (j: nat)
    requires i <= |s|
    ensures i <= j <= |s| && (j == |s| || !IsDigit(s[j]))
    ensures forall p :: i <= p < j ==> IsDigit(s[p])
    decreases |s| - i
  {
    if i < |s| && IsDigit(s[i]) then DigitEnd(s, i + 1) else i
  }

  /** The end of the run of whitespace starting at `i`. */
  function SpaceEnd(s: string, i: nat): (j: nat)
    requires i <= |s|
    ensures i <= j <= |s| && (j == |s| || !IsSpace(s[j]))
    ensures forall p :: i <= p < j ==> IsSpace(s[p])
    decreases |s| - i
  {
    if i < |s| && IsSpace(s[i]) then SpaceEnd(s, i + 1) else i
  }

  const Comment := "# number of samples"

  /** `\d+\s+# number of samples` tried at position `i`. Greedy runs are the
      only choice: the digits must stop where whitespace starts and the
      whitespace where `#` starts. On success: the end of the digits and
      the end of the match. */
  function NumSampleAt(s: string, i: nat): (m: Option<(nat, nat)>)
    ensures m.Some? ==> i < m.value.0 < m.value.1 - |Comment| && m.value.1 <= |s|
    ensures m.Some? ==> s[m.value.1 - |Comment|..m.value.1] == Comment
  {
    if i > |s| then None
    else
      var j := DigitEnd(s, i);
      if j == i then None
      else
        var k := SpaceEnd(s, j);
        if k == j || k + |Comment| > |s| || s[k..k + |Comment|] != Comment then None
        else Some((j, k + |Comment|))
  }

  /** The pattern read literally: some digits from `i` to `j`, some
      whitespace from `j` to `k`, then the comment. */
  ghost predicate NumSampleShape(s: string, i: nat, j: nat, k: nat)
  {
    i < j < k && k + |Comment| <= |s|
    && (forall p :: i <= p < j ==> IsDigit(s[p]))
    && (forall p :: j <= p < k ==> IsSpace(s[p]))
    && s[k..k + |Comment|] == Comment
  }

  /** The recognizer agrees with the pattern, in both directions, and finds
      the only way the pattern can match at `i`. */
  lemma NumSampleAtIff(s: string, i: nat, j: nat, k: nat)
    ensures NumSampleShape(s, i, j, k) ==> NumSampleAt(s, i) == Some((j, k + |Comment|))
    ensures NumSampleAt(s, i).Some? ==>
      NumSampleShape(s, i, NumSampleAt(s, i).value.0, NumSampleAt(s, i).value.1 - |Comment|)
  {
    if NumSampleShape(s, i, j, k) {
      assert IsSpace(s[j]) && !IsDigit(s[j]);
      assert DigitEnd(s, i) == j;
      assert s[k] == s[k..k + |Comment|][0] == Comment[0] == '#';
      assert SpaceEnd(s, j) == k;
    }
  }

  /** The pattern matches at no start position from `i` up to, but not
      including, `j`. */
  predicate NoNumSampleIn(s: string, i: nat, j: nat)
  {
    forall m :: i <= m < j ==> NumSampleAt(s, m).None?
  }

  /** Where `progNumSample.search` matches when it tries the start
      positions `i`, `i + 1`, ... in turn: the leftmost position. */
  function NumSampleFrom(s: string, i: nat): (r: Option<nat>)
    ensures r.Some? ==> i <= r.value <= |s| && NumSampleAt(s, r.value).Some?
    ensures r.Some? ==> NoNumSampleIn(s, i, r.value)
    ensures r.None? ==> NoNumSampleIn(s, i, |s| + 1)
    decreases |s| + 1 - i
  {
    if i > |s| then None
    else if NumSampleAt(s, i).Some? then Some(i)
    else
      var r := NumSampleFrom(s, i + 1);
      NoNumSampleExtend(s, i, if r.Some? then r.value else |s| + 1);
      r
  }

  lemma NoNumSampleExtend(s: string, i: nat, j: nat)
    requires NumSampleAt(s, i).None? && NoNumSampleIn(s, i + 1, j)
    ensures NoNumSampleIn(s, i, j)
  {
  }

  function FirstNumSample(s: string): Option<nat>
  {
    NumSampleFrom(s, 0)
  }

  /** `10` to the power `k`. */
  function Pow10(k: nat): (p: nat)
    ensures p > 0
  {
    if k == 0 then 1 else 10 * Pow10(k - 1)
  }

  /** The decimal value of a run of digits (`int(...)`). */
  function DigitsValue(d: string): nat
  {
    PrefixValue(d, |d|)
  }

  /** The decimal value of the first `k` characters of `d`. */
  function PrefixValue(d: string, k: nat): nat
    requires k <= |d|
  {
    if k == 0 then 0 else PrefixValue(d, k - 1) * 10 + DigitValue(d[k - 1])
  }

  function DigitValue(c: char): nat
  {
    if IsDigit(c) then (c - '0') as nat else 0
  }

  /** `k` digits read a value below `10` to the power `k`. */
  lemma DigitsValueBound(d: string)
    ensures DigitsValue(d) < Pow10(|d|)
  {
    PrefixValueBound(d, |d|);
  }

  lemma {:induction false} PrefixValueBound(d: string, k: nat)
    requires k <= |d|
    ensures PrefixValue(d, k) < Pow10(k)
  {
    if k > 0 {
      var u := PrefixValue(d, k - 1);
      PrefixValueBound(d, k - 1);
      assert u * 10 <= (Pow10(k - 1) - 1) * 10;
    }
  }

  /** Characters after the first `k` do not change their value. */
  lemma {:induction false} PrefixValueExtend(d: string, e: string, k: nat)
    requires k <= |d|
    ensures PrefixValue(d + e, k) == PrefixValue(d, k)
  {
    if k > 0 {
      assert (d + e)[k - 1] == d[k - 1];
      PrefixValueExtend(d, e, k - 1);
    }
  }

  /** The digit for a value below ten. */
  function DigitChar(x: nat): (c: char)
    requires x < 10
    ensures IsDigit(c) && (c - '0') as nat == x
  {
    ('0' as int + x) as char
  }

  /** `str(n)`: the decimal digits of `n`, without leading zeros. */
  function Decimal(n: nat): (d: string)
    ensures |d| > 0 && forall p :: 0 <= p < |d| ==> IsDigit(d[p])
  {
    if n < 10 then [DigitChar(n)] else Decimal(n / 10) + [DigitChar(n % 10)]
  }

  /** Round trip: `int(str(n)) == n`. */
  lemma {:induction false} DigitsValueDecimal(n: nat)
    ensures DigitsValue(Decimal(n)) == n
  {
    var d := Decimal(n);
    if n >= 10 {
      var h := Decimal(n / 10);
      var c := DigitChar(n % 10);
      assert d == h + [c] && d[|h|] == c;
      PrefixValueExtend(h, [c], |h|);
      DigitsValueDecimal(n / 10);
      assert DigitValue(c) == n % 10;
    } else {
      assert DigitsValue(d) == PrefixValue(d, 0) * 10 + DigitValue(d[0]);
      assert DigitValue(d[0]) == n;
    }
  }

  /** The header cut: the declared number of samples and the text that
      follows, starting one character past the end of the match; `None`
      where the source fails because the header line is missing. */
  function CutHeader(s: string): Option<(nat, string)>
  {
    match FirstNumSample(s)
    case None => None
    case Some(i) => CutFrom(s, i)
  }

  /** The cut for the match found at `i`. */
  function CutFrom(s: string, i: nat): Option<(nat, string)>
  {
    match NumSampleAt(s, i)
    case None => None
    case Some((j, e)) => Some((DigitsValue(s[i..j]), if e < |s| then s[e + 1..] else []))
  }

  /** The text kept after the header is what follows the match, so it is a
      suffix of the file's text, shorter by at least the comment and a
      digit. */
  lemma CutHeaderSuffix(s: string)
    requires CutHeader(s).Some?
    ensures |CutHeader(s).value.1| + |Comment| < |s| && IsSuffix(CutHeader(s).value.1, s)
  {
  }

  /** The header is missing exactly when the pattern matches nowhere. */
  lemma CutHeaderMissing(s: string)
    ensures CutHeader(s).None? <==> forall i :: 0 <= i <= |s| ==> NumSampleAt(s, i).None?
  {
  }

  /** The count comes from a whole run of digits: the leftmost match cannot
      start in the middle of a number, because it would then also match one
      character earlier. */
  lemma CutHeaderWholeNumber(s: string)
    requires FirstNumSample(s).Some?
    ensures var i := FirstNumSample(s).value; i == 0 || !IsDigit(s[i - 1])
  {
    var i := FirstNumSample(s).value;
    if i > 0 && IsDigit(s[i - 1]) {
      var m := NumSampleAt(s, i).value;
      NumSampleAtIff(s, i, m.0, m.1 - |Comment|);
      NumSampleAtIff(s, i - 1, m.0, m.1 - |Comment|);
    }
  }

  /** A header line `<digits> # number of samples` followed by a line feed at
      the start of the text yields the value of those digits and exactly the
      text after that line. */
  lemma CutHeaderLine(d: string, rest: string)
    requires |d| > 0 && forall p :: 0 <= p < |d| ==> IsDigit(d[p])
    ensures CutHeader(d + " " + Comment + "\n" + rest) == Some((DigitsValue(d), rest))
  {
    var s := d + " " + Comment + "\n" + rest;
    var k := |d| + 1;
    HeaderLineMatches(d, rest);
    CutHeaderAtStart(s, |d|, k + |Comment|);
    assert s[0..|d|] == d;
    assert s[k + |Comment| + 1..] == rest;
  }

  /** Round trip with the header line a logger writes for `n` samples. */
  lemma HeaderRoundTrip(n: nat, rest: string)
    ensures CutHeader(Decimal(n) + " " + Comment + "\n" + rest) == Some((n, rest))
  {
    CutHeaderLine(Decimal(n), rest);
    DigitsValueDecimal(n);
  }

  lemma HeaderLineMatches(d: string, rest: string)
    requires |d| > 0 && forall p :: 0 <= p < |d| ==> IsDigit(d[p])
    ensures NumSampleAt(d + " " + Comment + "\n" + rest, 0) == Some((|d|, |d| + 1 + |Comment|))
  {
    var s := d + " " + Comment + "\n" + rest;
    var k := |d| + 1;
    assert NumSampleShape(s, 0, |d|, k) by {
      assert s[..|d|] == d;
      assert s[k..k + |Comment|] == Comment;
    }
    NumSampleAtIff(s, 0, |d|, k);
  }

  lemma CutHeaderAtStart(s: string, j: nat, e: nat)
    requires NumSampleAt(s, 0) == Some((j, e))
    ensures j <= e <= |s|
    ensures CutHeader(s) == Some((DigitsValue(s[0..j]), if e < |s| then s[e + 1..] else []))
  {
    NumSampleAtIff(s, 0, j, e - |Comment|);
    CutHeaderAtZero(s, j, e);
  }

  lemma CutHeaderAtZero(s: string, j: nat, e: nat)
    requires NumSampleAt(s, 0) == Some((j, e)) && j <= e <= |s|
    ensures CutHeader(s) == Some((DigitsValue(s[0..j]), if e < |s| then s[e + 1..] else []))
  {
    assert FirstNumSample(s) == Some(0);
  }

  /** The header after other header lines: when the text before the count
      line holds no match and does not end in a digit, the cut yields the
      count and exactly the text after that line. */
  lemma CutHeaderAfter(pre: string, d: string, rest: string)
    requires |d| > 0 && forall p :: 0 <= p < |d| ==> IsDigit(d[p])
    requires CutHeader(pre).None? && (pre == [] || !IsDigit(pre[|pre| - 1]))
    ensures CutHeader(pre + d + " " + Comment + "\n" + rest) == Some((DigitsValue(d), rest))
  {
    CutHeaderMissing(pre);
    CutHeaderAfterFound(pre, d, rest);
  }

  lemma CutHeaderAfterFound(pre: string, d: string, rest: string)
    requires |d| > 0 && forall p :: 0 <= p < |d| ==> IsDigit(d[p])
    requires NoNumSampleIn(pre, 0, |pre| + 1) && (pre == [] || !IsDigit(pre[|pre| - 1]))
    ensures CutHeader(pre + d + " " + Comment + "\n" + rest) == Some((DigitsValue(d), rest))
  {
    var s := pre + d + " " + Comment + "\n" + rest;
    var j := |pre| + |d|;
    LineShape(pre, d, rest);
    LineSlices(pre, d, rest);
    assert pre == s[..|pre|] && s[|pre|] == d[0];
    CutHeaderFoundAt(pre, s, j, j + 1 + |Comment|, d, rest);
  }

  /** The cut when the only match at or before the end of `pre` starts right
      after it. */
  lemma CutHeaderFoundAt(pre: string, s: string, j: nat, e: nat, d: string, rest: string)
    requires |pre| < |s| && pre == s[..|pre|] && IsDigit(s[|pre|])
    requires NoNumSampleIn(pre, 0, |pre| + 1) && (pre == [] || !IsDigit(pre[|pre| - 1]))
    requires NumSampleShape(s, |pre|, j, j + 1) && e == j + 1 + |Comment|
    requires e < |s| && s[|pre|..j] == d && s[e + 1..] == rest
    ensures CutHeader(s) == Some((DigitsValue(d), rest))
  {
    FoundAfter(pre, s, j);
    CutHeaderAt(s, |pre|, j, e);
  }

  /** The search finds the count line right after `pre`. */
  lemma FoundAfter(pre: string, s: string, j: nat)
    requires |pre| < |s| && pre == s[..|pre|] && IsDigit(s[|pre|])
    requires NoNumSampleIn(pre, 0, |pre| + 1) && (pre == [] || !IsDigit(pre[|pre| - 1]))
    requires NumSampleShape(s, |pre|, j, j + 1)
    ensures FirstNumSample(s) == Some(|pre|) && NumSampleAt(s, |pre|) == Some((j, j + 1 + |Comment|))
  {
    NumSampleAtIff(s, |pre|, j, j + 1);
    forall m | 0 <= m < |pre|
      ensures NumSampleAt(s, m).None?
    {
      PrefixNoMatch(pre, s, m);
    }
    NumSampleFromAt(s, 0, |pre|);
  }

  /** Where the digits and the text after the count line sit. */
  lemma LineSlices(pre: string, d: string, rest: string)
    ensures var s := pre + d + " " + Comment + "\n" + rest;
      var j := |pre| + |d|;
      j + 1 + |Comment| < |s| && s[|pre|..j] == d && s[j + 1 + |Comment| + 1..] == rest
  {
  }

  /** The count line has the pattern's shape where it starts. */
  lemma LineShape(pre: string, d: string, rest: string)
    requires |d| > 0 && forall p :: 0 <= p < |d| ==> IsDigit(d[p])
    ensures NumSampleShape(pre + d + " " + Comment + "\n" + rest, |pre|, |pre| + |d|, |pre| + |d| + 1)
  {
    var s := pre + d + " " + Comment + "\n" + rest;
    var i := |pre|;
    var j := i + |d|;
    assert s[i..j] == d;
    assert s[j + 1..j + 1 + |Comment|] == Comment;
  }

  /** A match that starts inside `pre` cannot reach into text that starts
      with a digit, so it would be a match of `pre` alone. */
  lemma PrefixNoMatch(pre: string, s: string, m: nat)
    requires m < |pre| < |s| && pre == s[..|pre|]
    requires !IsDigit(pre[|pre| - 1]) && IsDigit(s[|pre|]) && NumSampleAt(pre, m).None?
    ensures NumSampleAt(s, m).None?
  {
    var r := NumSampleAt(s, m);
    if r.Some? {
      var j := r.value.0;
      var k := r.value.1 - |Comment|;
      NumSampleAtIff(s, m, j, k);
      PrefixMatches(pre, s, m, j, k);
    }
  }

  lemma PrefixMatches(pre: string, s: string, m: nat, j: nat, k: nat)
    requires m < |pre| < |s| && pre == s[..|pre|]
    requires !IsDigit(pre[|pre| - 1]) && IsDigit(s[|pre|])
    requires NumSampleShape(s, m, j, k)
    ensures NumSampleAt(pre, m).Some?
  {
    PrefixShape(pre, s, m, j, k);
    NumSampleAtIff(pre, m, j, k);
  }

  lemma PrefixShape(pre: string, s: string, m: nat, j: nat, k: nat)
    requires m < |pre| < |s| && pre == s[..|pre|]
    requires !IsDigit(pre[|pre| - 1]) && IsDigit(s[|pre|])
    requires NumSampleShape(s, m, j, k)
    ensures NumSampleShape(pre, m, j, k)
  {
    var n := |pre|;
    assert s[n - 1] == pre[n - 1];
    assert !IsSpace(s[n]);
    assert forall q :: 0 <= q < |Comment| ==> !IsDigit(Comment[q]);
    assert k + |Comment| <= n;
    assert forall p :: 0 <= p < n ==> s[p] == pre[p];
    assert pre[k..k + |Comment|] == s[k..k + |Comment|];
  }

  /** The search from `i` stops at the first match. */
  lemma NumSampleFromAt(s: string, i: nat, m: nat)
    requires i <= m <= |s| && NoNumSampleIn(s, i, m) && NumSampleAt(s, m).Some?
    ensures NumSampleFrom(s, i) == Some(m)
  {
    var r := NumSampleFrom(s, i);
    assert r.Some? && r.value == m;
  }

  lemma CutHeaderAt(s: string, i: nat, j: nat, e: nat)
    requires FirstNumSample(s) == Some(i) && NumSampleAt(s, i) == Some((j, e)) && i <= j <= e <= |s|
    ensures CutHeader(s) == Some((DigitsValue(s[i..j]), if e < |s| then s[e + 1..] else []))
  {
    assert CutHeader(s) == CutFrom(s, i);
  }

  /** How the samples are divided into chunks. `lastSize` is meaningful only
      when `hasLast` (the source's `chunkFlag`); `count` is the source's
      `workingNumChunks`. */
  datatype Plan = Plan(chunkSize: nat, lastSize: nat, hasLast: bool, count: nat)

  /** Chunk sizing for `n` samples and `chunks` target chunks. */
  function ChunkPlan(n: nat, chunks: nat): (p: Plan)
    requires chunks > 0
    ensures p.chunkSize * chunks + (if p.hasLast then p.lastSize else 0) == n
    ensures p.hasLast <==> n % chunks != 0
    ensures p.hasLast ==> 0 < p.lastSize < chunks
    ensures p.count == chunks + (if p.hasLast then 1 else 0)
  {
    if n % chunks != 0 then Plan(n / chunks, n % chunks, true, chunks + 1)
    else Plan(n / chunks, 0, false, chunks)
  }

  /** The contract of `ChunkPlan` leaves no freedom: any plan that covers `n`
      samples with `chunks` equal chunks and a shorter optional last one is
      the one computed. */
  lemma ChunkPlanUnique(n: nat, chunks: nat, p: Plan)
    requires chunks > 0
    requires p.chunkSize * chunks + (if p.hasLast then p.lastSize else 0) == n
    requires p.hasLast ==> 0 < p.lastSize < chunks
    requires !p.hasLast ==> p.lastSize == 0
    requires p.count == chunks + (if p.hasLast then 1 else 0)
    ensures p == ChunkPlan(n, chunks)
  {
    var r := if p.hasLast then p.lastSize else 0;
    DivModUnique(n, chunks, p.chunkSize, r);
  }

  lemma DivModUnique(n: nat, d: nat, q: nat, r: nat)
    requires d > 0 && r < d && q * d + r == n
    ensures q == n / d && r == n % d
  {
    var q' := n / d;
    if q < q' {
      MulMono(q + 1, q', d);
    } else if q > q' {
      MulMono(q' + 1, q, d);
    }
  }

  /** 1000 samples in 20 chunks: 20 chunks of 50; 1005 samples: 20 chunks of
      50 and a last chunk of 5. */
  lemma ChunkPlanExamples()
    ensures ChunkPlan(1000, 20) == Plan(50, 0, false, 20)
    ensures ChunkPlan(1005, 20) == Plan(50, 5, true, 21)
  {
  }
}
