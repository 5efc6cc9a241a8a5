/** The Python string operations the deploy helper is built from:
    `str.strip()`, `str.split(sep)`, `sep.join(parts)`, `str.startswith`,
    `str.upper()`, `str.capitalize()` and `int(text, 16)`, with their
    round trips.  Whitespace is Python's `str.isspace()` set; letters and
    digits are ASCII (case mapping of other letters is not modelled). */
module DeployStrings {

  /** The exceptions the helper's text handling raises. */
  datatype Failure = RuntimeError | IndexError | ValueError

  datatype Result<T> = Ok(value: T) | Err(failure: Failure)

  /** `c.isspace()`. */
  predicate IsSpace(c: char)
  {
    || c == ' ' || '\t' <= c <= '\r' || '\U{1C}' <= c <= '\U{1F}'
    || c == '\U{85}' || c == '\U{A0}' || c == '\U{1680}' || '\U{2000}' <= c <= '\U{200A}'
    || c == '\U{2028}' || c == '\U{2029}' || c == '\U{202F}' || c == '\U{205F}' || c == '\U{3000}'
  }

  predicate AllSpace(s: string)
  {
    forall i :: 0 <= i < |s| ==> IsSpace(s[i])
  }

  /** `s.lstrip()`. */
  function TrimLeft(s: string): (t: string)
    ensures |t| <= |s|
  {
    if s != [] && IsSpace(s[0]) then TrimLeft(s[1..]) else s
  }

  /** `s.rstrip()`. */
  function TrimRight(s: string): (t: string)
    ensures |t| <= |s|
  {
    if s != [] && IsSpace(s[|s| - 1]) then TrimRight(s[..|s| - 1]) else s
  }

  /** `s.lstrip()` drops the leading whitespace and no more: it returns
      `s` from its first non-whitespace character on. */
  lemma {:induction false} TrimLeftShape(s: string)
    ensures var t := TrimLeft(s);
      && t == s[|s| - |t|..] && AllSpace(s[..|s| - |t|]) && (t != [] ==> !IsSpace(t[0]))
  {
    if s != [] && IsSpace(s[0]) {
      TrimLeftShape(s[1..]);
      var t := TrimLeft(s);
      var k := |s| - |t|;
      assert s[1..][|s| - 1 - |t|..] == s[k..];
      var w := s[..k];
      assert AllSpace(w) by {
        forall i | 0 <= i < |w| ensures IsSpace(w[i]) {
          if i > 0 { assert w[i] == s[1..][..k - 1][i - 1]; }
        }
      }
    }
  }

  /** `s.rstrip()` drops the trailing whitespace and no more. */
  lemma {:induction false} TrimRightShape(s: string)
    ensures var t := TrimRight(s);
      && t == s[..|t|] && AllSpace(s[|t|..]) && (t != [] ==> !IsSpace(t[|t| - 1]))
  {
    if s != [] && IsSpace(s[|s| - 1]) {
      var front := s[..|s| - 1];
      TrimRightShape(front);
      var t := TrimRight(s);
      assert front[..|t|] == s[..|t|];
      var w := s[|t|..];
      assert AllSpace(w) by {
        forall i | 0 <= i < |w| ensures IsSpace(w[i]) {
          if i < |w| - 1 { assert w[i] == front[|t|..][i]; }
        }
      }
    }
  }

  /** `s.strip()`. */
  function Strip(s: string): string
  {
    TrimLeft(TrimRight(s))
  }

  /** `s.strip()` is `s` without its leading and trailing whitespace: `s`
      is the result padded with whitespace on both sides. */
  lemma StripPads(s: string) returns (l: string, r: string)
    ensures AllSpace(l) && AllSpace(r) && s == l + Strip(s) + r
  {
    var m := TrimRight(s);
    var t := TrimLeft(m);
    TrimRightShape(s);
    TrimLeftShape(m);
    l := m[..|m| - |t|];
    r := s[|m|..];
    assert m == l + t;
    assert s == m + r;
    assert l + t + r == m + r;
  }

  /** The result of `strip()` neither starts nor ends with whitespace. */
  lemma StripEnds(s: string)
    ensures var t := Strip(s); t != [] ==> !IsSpace(t[0]) && !IsSpace(t[|t| - 1])
  {
    var m := TrimRight(s);
    var t := TrimLeft(m);
    TrimRightShape(s);
    TrimLeftShape(m);
    if t != [] {
      assert t[|t| - 1] == m[|m| - 1];
    }
  }

  lemma {:induction false} TrimLeftPadded(w: string, p: string)
    requires AllSpace(w)
    ensures TrimLeft(w + p) == TrimLeft(p)
    decreases |w|
  {
    if w != [] {
      assert (w + p)[0] == w[0] && IsSpace(w[0]);
      assert (w + p)[1..] == w[1..] + p;
      var w' := w[1..];
      assert AllSpace(w') by {
        forall i | 0 <= i < |w'| ensures IsSpace(w'[i]) {
          assert w'[i] == w[i + 1];
        }
      }
      TrimLeftPadded(w', p);
    } else {
      assert w + p == p;
    }
  }

  lemma {:induction false} TrimRightPadded(p: string, w: string)
    requires AllSpace(w)
    ensures TrimRight(p + w) == TrimRight(p)
    decreases |w|
  {
    if w != [] {
      assert (p + w)[|p + w| - 1] == w[|w| - 1] && IsSpace(w[|w| - 1]);
      assert (p + w)[..|p + w| - 1] == p + w[..|w| - 1];
      var w' := w[..|w| - 1];
      assert AllSpace(w') by {
        forall i | 0 <= i < |w'| ensures IsSpace(w'[i]) {
          assert w'[i] == w[i];
        }
      }
      TrimRightPadded(p, w');
    } else {
      assert p + w == p;
    }
  }

  /** A text that does not end in whitespace is its own `rstrip()`, and
      one that does not start with whitespace its own `lstrip()`. */
  lemma TrimmedAlready(s: string)
    ensures s != [] && !IsSpace(s[|s| - 1]) ==> TrimRight(s) == s
    ensures s != [] && !IsSpace(s[0]) ==> TrimLeft(s) == s
  {
  }

  /** Whitespace around a text does not change what it strips to. */
  lemma StripPadded(l: string, p: string, r: string)
    requires AllSpace(l) && AllSpace(r)
    ensures Strip(l + p + r) == Strip(p)
  {
    TrimRightPadded(l + p, r);
    var m := TrimRight(p);
    TrimRightShape(p);
    if m == [] {
      assert AllSpace(l + p) by {
        assert p == p[|m|..];
      }
      TrimRightPadded([], l + p);
      assert [] + (l + p) == l + p;
    } else {
      assert p == m + p[|m|..];
      assert l + p == (l + m) + p[|m|..];
      TrimRightPadded(l + m, p[|m|..]);
      assert (l + m)[|l + m| - 1] == m[|m| - 1];
      TrimmedAlready(l + m);
      TrimLeftPadded(l, m);
    }
  }

  /** Stripping twice is stripping once. */
  lemma StripIdempotent(s: string)
    ensures Strip(Strip(s)) == Strip(s)
  {
    var t := Strip(s);
    if t != [] {
      StripEnds(s);
      TrimmedAlready(t);
    }
  }

  predicate StartsWith(s: string, prefix: string)
  {
    |prefix| <= |s| && s[..|prefix|] == prefix
  }

  // ------------------------------------------------------------ split / join

  /** `s.split(sep)`. */
  function Split(s: string, sep: char): (parts: seq<string>)
    ensures |parts| >= 1
  {
    if s == [] then [[]]
    else
      var r := Split(s[1..], sep);
      if s[0] == sep then [[]] + r else [[s[0]] + r[0]] + r[1..]
  }

  /** No part of a split holds the separator. */
  lemma {:induction false} SplitPartsFree(s: string, sep: char)
    ensures forall i :: 0 <= i < |Split(s, sep)| ==> sep !in Split(s, sep)[i]
  {
    if s != [] {
      SplitPartsFree(s[1..], sep);
      var r := Split(s[1..], sep);
      assert sep !in r[0];
    }
  }

  /** `sep.join(parts)`. */
  function Join(parts: seq<string>, sep: string): string
  {
    if parts == [] then []
    else if |parts| == 1 then parts[0]
    else parts[0] + sep + Join(parts[1..], sep)
  }

  /** Joining the parts of a split with the separator gives the text back. */
  lemma {:induction false} JoinSplit(s: string, sep: char)
    ensures Join(Split(s, sep), [sep]) == s
  {
    if s != [] {
      var r := Split(s[1..], sep);
      JoinSplit(s[1..], sep);
      if s[0] == sep {
        assert Split(s, sep) == [[]] + r;
        assert ([[]] + r)[1..] == r;
        assert s == [] + [sep] + Join(r, [sep]);
      } else {
        var parts := [[s[0]] + r[0]] + r[1..];
        if |r| == 1 {
          assert s == [s[0]] + r[0];
        } else {
          assert parts[1..] == r[1..];
          assert Join(r, [sep]) == r[0] + [sep] + Join(r[1..], [sep]);
          assert s == [s[0]] + Join(r, [sep]);
        }
      }
    }
  }

  /** Splitting a text that starts with a separator-free `w`. */
  lemma {:induction false} SplitPrefix(w: string, x: string, sep: char)
    requires sep !in w
    ensures var r := Split(x, sep); Split(w + x, sep) == [w + r[0]] + r[1..]
    decreases |w|
  {
    if w != [] {
      assert (w + x)[1..] == w[1..] + x;
      assert (w + x)[0] == w[0];
      SplitPrefix(w[1..], x, sep);
      var r := Split(x, sep);
      assert [w[0]] + (w[1..] + r[0]) == w + r[0];
      assert ([w[1..] + r[0]] + r[1..])[1..] == r[1..];
    } else {
      var r := Split(x, sep);
      assert w + x == x;
      assert w + r[0] == r[0];
      assert [r[0]] + r[1..] == r;
    }
  }

  /** Splitting a join of separator-free parts gives the parts back. */
  lemma {:induction false} SplitJoin(parts: seq<string>, sep: char)
    requires |parts| >= 1
    requires forall i :: 0 <= i < |parts| ==> sep !in parts[i]
    ensures Split(Join(parts, [sep]), sep) == parts
  {
    if |parts| == 1 {
      SplitPrefix(parts[0], [], sep);
      assert parts[0] + [] == parts[0];
    } else {
      var tail := Join(parts[1..], [sep]);
      SplitJoin(parts[1..], sep);
      assert Join(parts, [sep]) == parts[0] + ([sep] + tail);
      SplitPrefix(parts[0], [sep] + tail, sep);
      assert ([sep] + tail)[1..] == tail;
      assert Split([sep] + tail, sep) == [[]] + parts[1..];
      assert parts[0] + [] == parts[0];
      assert parts == [parts[0]] + parts[1..];
    }
  }

  /** `parts` with `w` appended to its last element. */
  function AppendToLast(parts: seq<string>, w: string): (r: seq<string>)
    requires |parts| >= 1
    ensures |r| == |parts|
  {
    parts[..|parts| - 1] + [parts[|parts| - 1] + w]
  }

  lemma AppendToLastCons(a: string, parts: seq<string>, w: string)
    requires |parts| >= 1
    ensures AppendToLast([a] + parts, w) == [a] + AppendToLast(parts, w)
  {
    assert ([a] + parts)[..|parts|] == [a] + parts[..|parts| - 1];
  }

  /** Splitting a text that ends with a separator-free `w`. */
  lemma {:induction false} SplitSuffix(x: string, w: string, sep: char)
    requires sep !in w
    ensures Split(x + w, sep) == AppendToLast(Split(x, sep), w)
  {
    if x == [] {
      SplitPrefix(w, [], sep);
      assert x + w == w + [];
    } else {
      assert (x + w)[1..] == x[1..] + w;
      assert (x + w)[0] == x[0];
      SplitSuffix(x[1..], w, sep);
      var r := Split(x[1..], sep);
      var r' := Split(x[1..] + w, sep);
      if x[0] == sep {
        AppendToLastCons([], r, w);
      } else if |r| == 1 {
        assert [x[0]] + (r[0] + w) == ([x[0]] + r[0]) + w;
      } else {
        assert r == [r[0]] + r[1..];
        AppendToLastCons(r[0], r[1..], w);
        AppendToLastCons([x[0]] + r[0], r[1..], w);
        assert r'[1..] == AppendToLast(r[1..], w);
      }
    }
  }

  /** Each part of `s.split(sep)`, stripped. */
  function StripAll(parts: seq<string>): (r: seq<string>)
    ensures |r| == |parts|
    ensures forall i :: 0 <= i < |parts| ==> r[i] == Strip(parts[i])
  {
    seq(|parts|, i requires 0 <= i < |parts| => Strip(parts[i]))
  }

  /** The comma-separated fields of a line, as the helper reads them:
      `[x.strip() for x in line.strip().split(',')]`. */
  function Fields(line: string): (fields: seq<string>)
    ensures |fields| >= 1
  {
    StripAll(Split(Strip(line), ','))
  }

  /** The outer `strip()` of `Fields` makes no difference: each field is
      stripped anyway. */
  lemma FieldsIgnoreOuterStrip(line: string)
    ensures Fields(line) == StripAll(Split(line, ','))
  {
    var l, r := StripPads(line);
    StripAllPadded(l, Strip(line), r);
  }

  /** Whitespace around a line only pads its first and last field. */
  lemma StripAllPadded(l: string, m: string, r: string)
    requires AllSpace(l) && AllSpace(r)
    ensures StripAll(Split(l + m + r, ',')) == StripAll(Split(m, ','))
  {
    SpaceHasNoComma(l);
    SpaceHasNoComma(r);
    var ms := Split(m, ',');
    var whole := SplitPadded(l, m, r, ',');
    forall i | 0 <= i < |ms| ensures Strip(ms[i]) == Strip(whole[i]) {
      StripPart(l, ms, r, whole, i);
    }
    StripAllAgree(ms, whole);
  }

  lemma SpaceHasNoComma(w: string)
    requires AllSpace(w)
    ensures ',' !in w
  {
    assert !IsSpace(',');
  }

  lemma StripAllAgree(xs: seq<string>, ys: seq<string>)
    requires |xs| == |ys| && forall i :: 0 <= i < |xs| ==> Strip(xs[i]) == Strip(ys[i])
    ensures StripAll(xs) == StripAll(ys)
  {
  }

  /** `whole` is the split `ms` with `l` joined to its first part and `r`
      to its last. */
  predicate PaddedSplit(l: string, ms: seq<string>, r: string, whole: seq<string>)
  {
    && |whole| == |ms|
    && (|ms| == 1 ==> whole[0] == l + ms[0] + r)
    && (|ms| > 1 ==> whole[0] == l + ms[0] && whole[|ms| - 1] == ms[|ms| - 1] + r)
    && forall i :: 0 < i < |ms| - 1 ==> whole[i] == ms[i]
  }

  lemma StripPart(l: string, ms: seq<string>, r: string, whole: seq<string>, i: nat)
    requires AllSpace(l) && AllSpace(r)
    requires PaddedSplit(l, ms, r, whole) && i < |ms|
    ensures Strip(whole[i]) == Strip(ms[i])
  {
    if |ms| == 1 {
      StripPadded(l, ms[0], r);
    } else if i == 0 {
      assert whole[0] == l + ms[0] + [];
      StripPadded(l, ms[0], []);
    } else if i == |ms| - 1 {
      assert whole[i] == [] + ms[i] + r;
      StripPadded([], ms[i], r);
    }
  }

  /** Splitting `l + m + r` with separator-free `l` and `r`: they join the
      first and the last part of `m`'s split. */
  lemma SplitPadded(l: string, m: string, r: string, sep: char) returns (whole: seq<string>)
    requires sep !in l && sep !in r
    ensures whole == Split(l + m + r, sep)
    ensures PaddedSplit(l, Split(m, sep), r, whole)
  {
    var ms := Split(m, sep);
    SplitSuffix(m, r, sep);
    var mr := Split(m + r, sep);
    SplitPrefix(l, m + r, sep);
    assert l + m + r == l + (m + r);
    whole := Split(l + m + r, sep);
    assert whole == [l + mr[0]] + mr[1..];
    assert |mr| == |ms|;
    assert forall i :: 0 <= i < |ms| - 1 ==> mr[i] == ms[i];
    assert mr[|ms| - 1] == ms[|ms| - 1] + r;
    forall i | 0 < i < |ms| ensures whole[i] == mr[i] {
      assert whole[i] == mr[1..][i - 1];
    }
    if |ms| == 1 {
      assert l + (ms[0] + r) == l + ms[0] + r;
    }
  }

  /** A field as `Fields` produces it: comma-free and already stripped. */
  predicate Clean(f: string)
  {
    ',' !in f && Strip(f) == f
  }

  /** Every field of a line is clean. */
  lemma FieldsAreClean(line: string)
    ensures forall i :: 0 <= i < |Fields(line)| ==> Clean(Fields(line)[i])
  {
    var parts := Split(Strip(line), ',');
    SplitPartsFree(Strip(line), ',');
    forall i | 0 <= i < |parts| ensures Clean(Strip(parts[i])) {
      var l, r := StripPads(parts[i]);
      StripIdempotent(parts[i]);
    }
  }

  /** Comma-free parts joined with `", "`, with whitespace around the
      whole, split and strip back to the stripped parts. */
  lemma {:induction false} StripAllSplitJoin(lead: string, ps: seq<string>, tail: string)
    requires AllSpace(lead) && AllSpace(tail) && |ps| >= 1
    requires forall i :: 0 <= i < |ps| ==> ',' !in ps[i]
    ensures StripAll(Split(lead + Join(ps, ", ") + tail, ',')) == StripAll(ps)
    decreases |ps|
  {
    SpaceHasNoComma(lead);
    SpaceHasNoComma(tail);
    assert ps == [ps[0]] + ps[1..];
    StripAllCons(ps[0], ps[1..]);
    if |ps| == 1 {
      var x := lead + ps[0] + tail;
      assert Split(x, ',') == [x] by {
        SplitPrefix(x, [], ',');
        assert x + [] == x;
      }
      StripAllCons(x, []);
      StripPadded(lead, ps[0], tail);
    } else {
      var rest := Split(" " + Join(ps[1..], ", ") + tail, ',');
      SplitJoinHead(lead, ps, tail);
      assert AllSpace(" ");
      StripAllSplitJoin(" ", ps[1..], tail);
      StripAllCons(lead + ps[0], rest);
      assert Strip(lead + ps[0]) == Strip(ps[0]) by {
        assert lead + ps[0] == lead + ps[0] + [];
        StripPadded(lead, ps[0], []);
      }
    }
  }

  lemma StripAllCons(p: string, ps: seq<string>)
    ensures StripAll([p] + ps) == [Strip(p)] + StripAll(ps)
  {
    var l, r := StripAll([p] + ps), [Strip(p)] + StripAll(ps);
    forall i | 0 <= i < |l| ensures l[i] == r[i] {
      if i > 0 {
        assert ([p] + ps)[i] == ps[i - 1];
      }
    }
  }

  /** Splitting a join of two or more parts at commas first cuts off the
      leading part. */
  lemma SplitJoinHead(lead: string, ps: seq<string>, tail: string)
    requires |ps| >= 2 && ',' !in lead && ',' !in ps[0]
    ensures Split(lead + Join(ps, ", ") + tail, ',') == [lead + ps[0]] + Split(" " + Join(ps[1..], ", ") + tail, ',')
  {
    var head := lead + ps[0];
    var y := " " + Join(ps[1..], ", ") + tail;
    assert lead + Join(ps, ", ") + tail == head + ([','] + y);
    SplitPrefix(head, [','] + y, ',');
    assert ([','] + y)[1..] == y;
    assert head + [] == head;
  }

  /** `Fields` of a line written as clean fields joined with `", "` and
      ended with a newline gives those fields back. */
  lemma FieldsOfJoin(ps: seq<string>)
    requires |ps| >= 1
    requires forall i :: 0 <= i < |ps| ==> Clean(ps[i])
    ensures Fields(Join(ps, ", ") + "\n") == ps
  {
    assert forall i :: 0 <= i < |ps| ==> ',' !in ps[i];
    FieldsOfJoinStrip(ps);
    StripAllClean(ps);
  }

  lemma FieldsOfJoinStrip(ps: seq<string>)
    requires |ps| >= 1
    requires forall i :: 0 <= i < |ps| ==> ',' !in ps[i]
    ensures Fields(Join(ps, ", ") + "\n") == StripAll(ps)
  {
    var line := Join(ps, ", ") + "\n";
    var nl := "\n";
    assert AllSpace(nl);
    assert line == [] + Join(ps, ", ") + nl;
    StripAllSplitJoin([], ps, nl);
    FieldsIgnoreOuterStrip(line);
  }

  lemma StripAllClean(ps: seq<string>)
    requires forall i :: 0 <= i < |ps| ==> Clean(ps[i])
    ensures StripAll(ps) == ps
  {
  }

  /** Stripping keeps a prefix that neither starts nor ends with
      whitespace. */
  lemma StripKeepsPrefix(p: string, x: string)
    requires p != [] && !IsSpace(p[0]) && !IsSpace(p[|p| - 1])
    ensures StartsWith(Strip(p + x), p)
  {
    var s := p + x;
    var m := TrimRight(s);
    TrimRightShape(s);
    assert s[|p| - 1] == p[|p| - 1];
    assert |m| >= |p|;
    assert m[..|p|] == p;
    TrimmedAlready(m);
  }

  // ---------------------------------------------------------------- letters

  predicate IsDigit(c: char) { '0' <= c <= '9' }

  function ToUpper(c: char): char
  {
    if 'a' <= c <= 'z' then (c as int - 32) as char else c
  }

  function ToLower(c: char): char
  {
    if 'A' <= c <= 'Z' then (c as int + 32) as char else c
  }

  /** `s.upper()`. */
  function Upper(s: string): (u: string)
    ensures |u| == |s|
    ensures forall i :: 0 <= i < |s| ==> u[i] == ToUpper(s[i])
  {
    seq(|s|, i requires 0 <= i < |s| => ToUpper(s[i]))
  }

  /** `s.lower()`. */
  function Lower(s: string): (l: string)
    ensures |l| == |s|
    ensures forall i :: 0 <= i < |s| ==> l[i] == ToLower(s[i])
  {
    seq(|s|, i requires 0 <= i < |s| => ToLower(s[i]))
  }

  /** `s.capitalize()`: the first character upper case, the rest lower
      case. */
  function Capitalize(s: string): (c: string)
    ensures |c| == |s|
  {
    if s == [] then [] else [ToUpper(s[0])] + Lower(s[1..])
  }

  lemma UpperOfLower(c: char)
    ensures ToUpper(ToLower(c)) == ToUpper(c)
  {
  }

  lemma UpperOfLowerText(s: string)
    ensures Upper(Lower(s)) == Upper(s)
  {
    forall i | 0 <= i < |s| ensures Upper(Lower(s))[i] == Upper(s)[i] {
      UpperOfLower(s[i]);
    }
  }

  /** Capitalising changes only the case of a word. */
  lemma UpperOfCapitalize(s: string)
    ensures Upper(Capitalize(s)) == Upper(s)
  {
    if s != [] {
      UpperAppend([ToUpper(s[0])], Lower(s[1..]));
      UpperOfLowerText(s[1..]);
      UpperAppend([s[0]], s[1..]);
      assert s == [s[0]] + s[1..];
    }
  }

  lemma UpperAppend(a: string, b: string)
    ensures Upper(a + b) == Upper(a) + Upper(b)
  {
  }
}
