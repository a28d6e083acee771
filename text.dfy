/** The two whitespace substitutions applied to every record:
    `re.sub(r"\s+", '', s)` on the meteorological line and
    `re.sub(r"\s+", ',', s)` on each instrument sub-block. */
module Text {
  import opened Base

  /** Python's `\s` on text: exactly the characters `str.isspace` accepts. */
  predicate IsSpace(c: char)
  {
    c == ' ' || ('\t' <= c <= '\r') || ('\U{1C}' <= c <= '\U{1F}')
    || c == '\U{85}' || c == '\U{A0}' || c == '\U{1680}'
    || ('\U{2000}' <= c <= '\U{200A}') || c == '\U{2028}' || c == '\U{2029}'
    || c == '\U{202F}' || c == '\U{205F}' || c == '\U{3000}'
  }

  predicate NoSpace(s: string)
  {
    forall i :: 0 <= i < |s| ==> !IsSpace(s[i])
  }

  /** Removes every whitespace character. */
  function Strip(s: string): (r: string)
    ensures NoSpace(r) && |r| <= |s|
  {
    if s == [] then [] else (if IsSpace(s[0]) then [] else [s[0]]) + Strip(s[1..])
  }

  /** Stripping changes nothing exactly when there is no whitespace, so a
      second strip is the identity. */
  lemma {:induction false} StripFixpoint(s: string)
    ensures Strip(s) == s <==> NoSpace(s)
  {
    if s != [] && NoSpace(s) {
      StripFixpoint(s[1..]);
    }
  }

  lemma {:induction false} StripAppend(a: string, b: string)
    ensures Strip(a + b) == Strip(a) + Strip(b)
  {
    if a == [] {
      assert a + b == b;
    } else {
      assert (a + b)[1..] == a[1..] + b;
      StripAppend(a[1..], b);
    }
  }

  /** Stripping deletes whitespace rather than replacing it: text strips to
      nothing exactly when it is all whitespace. With `StripAppend`, a
      whitespace run inside a text vanishes from its place. */
  lemma {:induction false} StripAllSpace(w: string)
    ensures Strip(w) == [] <==> AllSpace(w)
  {
    if w != [] {
      StripAllSpace(w[1..]);
      if AllSpace(w) {
        assert AllSpace(w[1..]) by {
          forall i | 0 <= i < |w[1..]|
            ensures IsSpace(w[1..][i])
          {
            assert w[1..][i] == w[i + 1];
          }
        }
      } else if IsSpace(w[0]) {
        var i :| 0 <= i < |w| && !IsSpace(w[i]);
        assert w[1..][i - 1] == w[i];
      }
    }
  }

  /** Removes every occurrence of `c`. */
  function Erase(s: string, c: char): string
  {
    if s == [] then [] else (if s[0] == c then [] else [s[0]]) + Erase(s[1..], c)
  }

  /** Drops the whitespace run at the front of `s`. */
  function DropSpace(s: string): (r: string)
    ensures |r| <= |s| && r == s[|s| - |r|..]
    ensures r == [] || !IsSpace(r[0])
    ensures forall i :: 0 <= i < |s| - |r| ==> IsSpace(s[i])
    ensures s != [] && IsSpace(s[0]) ==> |r| < |s|
  {
    if s != [] && IsSpace(s[0]) then DropSpace(s[1..]) else s
  }

  /** Replaces every maximal whitespace run by a single comma. */
  function Collapse(s: string): (r: string)
    ensures NoSpace(r) && |r| <= |s|
    decreases |s|
  {
    if s == [] then []
    else if IsSpace(s[0]) then [','] + Collapse(DropSpace(s))
    else [s[0]] + Collapse(s[1..])
  }

  /** Independent count of maximal whitespace runs, scanning left to right
      with a flag saying whether the previous character was whitespace. */
  function RunStarts(s: string, afterSpace: bool): nat
  {
    if s == [] then 0
    else (if IsSpace(s[0]) && !afterSpace then 1 else 0) + RunStarts(s[1..], IsSpace(s[0]))
  }

  lemma {:induction false} RunStartsDrop(s: string)
    ensures RunStarts(s, true) == RunStarts(DropSpace(s), false)
  {
    if s != [] && IsSpace(s[0]) {
      RunStartsDrop(s[1..]);
    }
  }

  lemma {:induction false} DropSpaceKeeps(s: string, c: char)
    requires !IsSpace(c)
    ensures CountChar(s, c) == CountChar(DropSpace(s), c)
    ensures Strip(s) == Strip(DropSpace(s))
  {
    if s != [] && IsSpace(s[0]) {
      DropSpaceKeeps(s[1..], c);
    }
  }

  /** Collapsing is the identity exactly on whitespace-free text; in
      particular collapsing an already collapsed line changes nothing. */
  lemma {:induction false} CollapseFixpoint(s: string)
    ensures Collapse(s) == s <==> NoSpace(s)
    ensures Collapse(Collapse(s)) == Collapse(s)
  {
    if NoSpace(s) {
      CollapseNoSpaceId(s);
    }
    CollapseNoSpaceId(Collapse(s));
  }

  lemma {:induction false} CollapseNoSpaceId(s: string)
    requires NoSpace(s)
    ensures Collapse(s) == s
  {
    if s != [] {
      CollapseNoSpaceId(s[1..]);
    }
  }

  /** Non-whitespace content survives collapsing unchanged and in order:
      once the separators are erased, the collapsed text and the stripped
      text agree. */
  lemma {:induction false} CollapseKeepsFields(s: string)
    ensures Erase(Collapse(s), ',') == Erase(Strip(s), ',')
    decreases |s|
  {
    if s == [] {
    } else if IsSpace(s[0]) {
      var d := DropSpace(s);
      CollapseKeepsFields(d);
      DropSpaceKeeps(s, ',');
      assert ([','] + Collapse(d))[1..] == Collapse(d);
    } else {
      CollapseKeepsFields(s[1..]);
      assert ([s[0]] + Collapse(s[1..]))[1..] == Collapse(s[1..]);
      assert ([s[0]] + Strip(s[1..]))[1..] == Strip(s[1..]);
    }
  }

  /** Each maximal whitespace run contributes exactly one comma. */
  lemma {:induction false} CollapseCommaCount(s: string)
    ensures CountChar(Collapse(s), ',') == CountChar(s, ',') + RunStarts(s, false)
    decreases |s|
  {
    if s == [] {
    } else if IsSpace(s[0]) {
      var d := DropSpace(s);
      CollapseCommaCount(d);
      DropSpaceKeeps(s[1..], ',');
      RunStartsDrop(s[1..]);
      assert ([','] + Collapse(d))[1..] == Collapse(d);
    } else {
      CollapseCommaCount(s[1..]);
      assert ([s[0]] + Collapse(s[1..]))[1..] == Collapse(s[1..]);
    }
  }
  /** Text made of whitespace only. */
  predicate AllSpace(w: string)
  {
    forall i :: 0 <= i < |w| ==> IsSpace(w[i])
  }

  /** Text that is empty or ends in a character other than whitespace, so no
      whitespace run crosses its end. */
  predicate EndsSolid(a: string)
  {
    a == [] || !IsSpace(a[|a| - 1])
  }

  /** Text that is empty or starts with a character other than whitespace. */
  predicate StartsSolid(b: string)
  {
    b == [] || !IsSpace(b[0])
  }

  lemma {:induction false} DropSpaceRun(w: string, b: string)
    requires AllSpace(w) && StartsSolid(b)
    ensures DropSpace(w + b) == b
  {
    if w == [] {
      assert w + b == b;
    } else {
      assert (w + b)[1..] == w[1..] + b;
      DropSpaceRun(w[1..], b);
    }
  }

  lemma {:induction false} DropSpaceAppend(x: string, t: string)
    requires x != [] && EndsSolid(x)
    ensures DropSpace(x + t) == DropSpace(x) + t
  {
    if IsSpace(x[0]) {
      assert (x + t)[1..] == x[1..] + t;
      DropSpaceAppend(x[1..], t);
    }
  }

  /** Collapsing distributes over a concatenation whose left part does not
      end inside a whitespace run. */
  lemma {:induction false} CollapseAppend(a: string, t: string)
    requires EndsSolid(a)
    ensures Collapse(a + t) == Collapse(a) + Collapse(t)
    decreases |a|
  {
    if a == [] {
      assert a + t == t;
    } else if IsSpace(a[0]) {
      var d := DropSpace(a);
      DropSpaceAppend(a, t);
      assert EndsSolid(d) && |d| < |a| by {
        assert d[|d| - 1] == a[|a| - 1];
      }
      CollapseAppend(d, t);
      CollapseRunFront(a, t, d);
    } else {
      CollapseAppend(a[1..], t);
      CollapseSolidFront(a, t);
    }
  }

  lemma CollapseRunFront(a: string, t: string, d: string)
    requires a != [] && IsSpace(a[0]) && d == DropSpace(a) && DropSpace(a + t) == d + t
    requires Collapse(d + t) == Collapse(d) + Collapse(t)
    ensures Collapse(a + t) == Collapse(a) + Collapse(t)
  {
    var x := a + t;
    assert x[0] == a[0];
    CollapseAtSpace(x);
    CollapseAtSpace(a);
    AppendAssoc([','], Collapse(d), Collapse(t));
  }

  lemma CollapseSolidFront(a: string, t: string)
    requires a != [] && !IsSpace(a[0])
    requires Collapse(a[1..] + t) == Collapse(a[1..]) + Collapse(t)
    ensures Collapse(a + t) == Collapse(a) + Collapse(t)
  {
    var x := a + t;
    TailAppend(a, t);
    CollapseAtSolid(x);
    CollapseAtSolid(a);
    AppendAssoc([a[0]], Collapse(a[1..]), Collapse(t));
  }

  lemma CollapseAtSpace(x: string)
    requires x != [] && IsSpace(x[0])
    ensures Collapse(x) == [','] + Collapse(DropSpace(x))
  {
  }

  lemma CollapseAtSolid(x: string)
    requires x != [] && !IsSpace(x[0])
    ensures Collapse(x) == [x[0]] + Collapse(x[1..])
  {
  }

  /** Each maximal whitespace run becomes one comma in its place: between
      text that does not end in whitespace and text that does not start
      with it, a non-empty run `w` turns into exactly `,`. */
  lemma CollapseRun(a: string, w: string, b: string)
    requires EndsSolid(a) && w != [] && AllSpace(w) && StartsSolid(b)
    ensures Collapse(a + (w + b)) == Collapse(a) + [','] + Collapse(b)
  {
    var x := w + b;
    CollapseAppend(a, x);
    DropSpaceRun(w, b);
    assert x[0] == w[0];
    assert Collapse(x) == [','] + Collapse(b);
    AppendAssoc(Collapse(a), [','], Collapse(b));
  }
}
