/** Small generic building blocks shared by the parser modules: optional
    values and results, and functions over sequences. */
module Base {

  datatype Option<T> = None | Some(value: T)

  datatype Result<T, E> = Ok(value: T) | Err(error: E)

  /** Counts the occurrences of `c` in `s`. */
  function CountChar(s: string, c: char): nat
  {
    if s == [] then 0 else (if s[0] == c then 1 else 0) + CountChar(s[1..], c)
  }

  lemma {:induction false} CountCharAppend(a: string, b: string, c: char)
    ensures CountChar(a + b, c) == CountChar(a, c) + CountChar(b, c)
  {
    if a == [] {
      assert a + b == b;
    } else {
      assert (a + b)[1..] == a[1..] + b;
      CountCharAppend(a[1..], b, c);
    }
  }

  lemma {:induction false} CountCharAbsent(s: string, c: char)
    requires c !in s
    ensures CountChar(s, c) == 0
  {
    if s != [] {
      assert c !in s[1..];
      CountCharAbsent(s[1..], c);
    }
  }

  /** A slice never holds more occurrences of `c` than the whole. */
  lemma CountCharSlice(s: string, i: nat, j: nat, c: char)
    requires i <= j <= |s|
    ensures CountChar(s[i..j], c) <= CountChar(s, c)
  {
    assert s == s[..i] + s[i..j] + s[j..];
    CountCharAppend(s[..i] + s[i..j], s[j..], c);
    CountCharAppend(s[..i], s[i..j], c);
  }

  /** Counting over adjacent slices adds up. */
  lemma CountCharSplit(s: string, i: nat, j: nat, k: nat, c: char)
    requires i <= j <= k <= |s|
    ensures CountChar(s[i..k], c) == CountChar(s[i..j], c) + CountChar(s[j..k], c)
  {
    assert s[i..k] == s[i..j] + s[j..k];
    CountCharAppend(s[i..j], s[j..k], c);
  }

  /** Counting in a one-character slice. */
  lemma CountCharOne(s: string, i: nat, c: char)
    requires i < |s|
    ensures CountChar(s[i..i + 1], c) == if s[i] == c then 1 else 0
  {
    assert s[i..i + 1][1..] == [];
  }

  /** A prefix followed by the next slice is the longer prefix. */
  lemma SliceJoin<T>(s: seq<T>, i: nat, j: nat)
    requires i <= j <= |s|
    ensures s[..i] + s[i..j] == s[..j]
  {
  }

  /** What follows a known prefix of a suffix. */
  lemma SuffixAfter(s: string, p: nat, a: string, b: string)
    requires p <= |s| && s[p..] == a + b
    ensures p + |a| <= |s| && s[p + |a|..] == b
  {
    assert s[p..][|a|..] == b;
  }

  /** `''.join(parts)`. */
  function Concat(parts: seq<string>): string
  {
    if parts == [] then [] else parts[0] + Concat(parts[1..])
  }

  lemma {:induction false} ConcatAppend(a: seq<string>, b: seq<string>)
    ensures Concat(a + b) == Concat(a) + Concat(b)
  {
    if a == [] {
      assert a + b == b;
    } else {
      assert (a + b)[1..] == a[1..] + b;
      ConcatAppend(a[1..], b);
    }
  }

  /** A line as it is written to an output file: one line feed, at its end. */
  predicate IsTerminatedLine(l: string)
  {
    |l| > 0 && l[|l| - 1] == '\n' && '\n' !in l[..|l| - 1]
  }

  /** Joining terminated lines yields exactly one line feed per line, the
      last character being a line feed whenever there is a line at all. */
  lemma {:induction false} ConcatLineCount(ls: seq<string>)
    requires forall i :: 0 <= i < |ls| ==> IsTerminatedLine(ls[i])
    ensures CountChar(Concat(ls), '\n') == |ls|
    ensures ls != [] ==> |Concat(ls)| > 0 && Concat(ls)[|Concat(ls)| - 1] == '\n'
  {
    if ls != [] {
      var l := ls[0];
      ConcatLineCount(ls[1..]);
      assert l == l[..|l| - 1] + ['\n'];
      CountCharAbsent(l[..|l| - 1], '\n');
      CountCharAppend(l[..|l| - 1], ['\n'], '\n');
      CountCharAppend(l, Concat(ls[1..]), '\n');
    }
  }

  lemma AppendAssoc<T>(a: seq<T>, b: seq<T>, c: seq<T>)
    ensures a + (b + c) == (a + b) + c
  {
  }

  lemma TailAppend<T>(a: seq<T>, t: seq<T>)
    requires a != []
    ensures (a + t)[0] == a[0] && (a + t)[1..] == a[1..] + t
  {
  }

  /** `t` is what remains of `s` once some prefix is cut off. */
  predicate IsSuffix(t: string, s: string)
  {
    |t| <= |s| && t == s[|s| - |t|..]
  }

  /** Lines joined with `'\n'` between them and none after the last one. */
  function JoinLines(ls: seq<string>): string
  {
    if |ls| == 0 then [] else if |ls| == 1 then ls[0] else ls[0] + "\n" + JoinLines(ls[1..])
  }

  /** Joining one more line adds a line feed and that line. */
  lemma {:induction false} JoinLinesSnoc(ls: seq<string>, l: string)
    requires |ls| >= 1
    ensures JoinLines(ls + [l]) == JoinLines(ls) + "\n" + l
  {
    if |ls| > 1 {
      assert (ls + [l])[1..] == ls[1..] + [l];
      JoinLinesSnoc(ls[1..], l);
    } else {
      assert (ls + [l])[1..] == [l];
    }
  }

  /** `k` copies of `x`. */
  function Repeat(x: nat, k: nat): (r: seq<nat>)
    ensures |r| == k && forall i :: 0 <= i < k ==> r[i] == x
  {
    if k == 0 then [] else Repeat(x, k - 1) + [x]
  }

  /** Sum of a sequence, peeled from its end. */
  function Sum(xs: seq<nat>): nat
  {
    if xs == [] then 0 else Sum(xs[..|xs| - 1]) + xs[|xs| - 1]
  }

  lemma {:induction false} SumRepeat(x: nat, k: nat)
    ensures Sum(Repeat(x, k)) == x * k
  {
    if k > 0 {
      assert Repeat(x, k)[..k - 1] == Repeat(x, k - 1);
      SumRepeat(x, k - 1);
      assert x * k == x * (k - 1) + x;
    }
  }

  /** Sum of a sequence with one more element. */
  lemma SumSnoc(xs: seq<nat>, x: nat)
    ensures Sum(xs + [x]) == Sum(xs) + x
  {
    assert (xs + [x])[..|xs|] == xs;
  }

  lemma MulMono(a: nat, b: nat, d: nat)
    requires a <= b
    ensures a * d <= b * d
  {
    assert b * d == a * d + (b - a) * d;
  }
}
