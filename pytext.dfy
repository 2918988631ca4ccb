/**
 * The parts of Python's str semantics that the three tools rely on:
 * startswith/endswith, the ordering of `<` and `sorted()`, `splitlines()`,
 * iterating over a text file, `join`, `rsplit`, `str(int)` and `int(str)`.
 */
module PyText {
  import opened Common

  predicate StartsWith(s: string, prefix: string)
  {
    |prefix| <= |s| && s[..|prefix|] == prefix
  }

  predicate EndsWith(s: string, suffix: string)
  {
    |suffix| <= |s| && s[|s| - |suffix|..] == suffix
  }

  lemma StartsWithAppend(a: string, b: string)
    ensures StartsWith(a + b, a)
  {
    assert (a + b)[..|a|] == a;
  }

  /** A prefix of the middle piece, after the first, starts the whole. */
  lemma StartsWithConcat(a: string, b: string, c: string, prefix: string)
    requires StartsWith(b, prefix)
    ensures StartsWith(a + b + c, a + prefix)
  {
    assert (a + b + c)[..|a + prefix|] == a + b[..|prefix|];
  }

  /** The last piece ends the whole. */
  lemma EndsWithConcat(a: string, b: string, suffix: string)
    ensures EndsWith(a + (b + suffix), suffix)
  {
    assert (a + (b + suffix))[|a + b|..] == suffix;
  }

  // ---------------------------------------------------------------------
  // Ordering: Python compares str by code points, lexicographically.
  // ---------------------------------------------------------------------

  predicate Less(a: string, b: string)
    decreases |a|
  {
    if a == [] then b != []
    else if b == [] then false
    else if a[0] != b[0] then a[0] < b[0]
    else Less(a[1..], b[1..])
  }

  lemma {:induction false} LessIrreflexive(a: string)
    ensures !Less(a, a)
    decreases |a|
  {
    if a != [] {
      LessIrreflexive(a[1..]);
    }
  }

  lemma {:induction false} LessTransitive(a: string, b: string, c: string)
    requires Less(a, b) && Less(b, c)
    ensures Less(a, c)
    decreases |a|
  {
    if a != [] && a[0] == b[0] && b[0] == c[0] {
      LessTransitive(a[1..], b[1..], c[1..]);
    }
  }

  lemma {:induction false} LessTotal(a: string, b: string)
    requires a != b
    ensures Less(a, b) || Less(b, a)
    decreases |a|
  {
    if a != [] && b != [] && a[0] == b[0] {
      assert a == [a[0]] + a[1..] && b == [b[0]] + b[1..];
      LessTotal(a[1..], b[1..]);
    }
  }

  lemma LessAsymmetric(a: string, b: string)
    requires Less(a, b)
    ensures !Less(b, a)
  {
    if Less(b, a) {
      LessTransitive(a, b, a);
      LessIrreflexive(a);
    }
  }

  /** Ascending order, as `sorted()` leaves a list of str. */
  predicate Sorted(s: seq<string>)
  {
    forall i, j :: 0 <= i < j < |s| ==> !Less(s[j], s[i])
  }

  function Insert(x: string, s: seq<string>): (r: seq<string>)
    ensures multiset(r) == multiset(s) + multiset{x}
  {
    if s == [] then [x]
    else if Less(s[0], x) then
      assert s == [s[0]] + s[1..];
      [s[0]] + Insert(x, s[1..])
    else [x] + s
  }

  lemma {:induction false} InsertSorted(x: string, s: seq<string>)
    requires Sorted(s)
    ensures Sorted(Insert(x, s))
    decreases |s|
  {
    if s != [] {
      if Less(s[0], x) {
        InsertSorted(x, s[1..]);
        var r := Insert(x, s[1..]);
        forall k | 0 <= k < |r|
          ensures !Less(r[k], s[0])
        {
          assert r[k] in multiset(r);
          if r[k] == x {
            LessAsymmetric(s[0], x);
          } else {
            assert r[k] in multiset(s[1..]);
            var m :| 0 <= m < |s[1..]| && s[1..][m] == r[k];
            assert s[m + 1] == r[k];
          }
        }
      } else {
        forall k | 0 < k < |s|
          ensures !Less(s[k], x)
        {
          if Less(s[k], x) {
            if s[0] != x {
              LessTotal(s[0], x);
              LessTransitive(s[k], x, s[0]);
            }
          }
        }
      }
    }
  }

  /** Python's `sorted()` on a list of str. */
  function Sort(s: seq<string>): (r: seq<string>)
    ensures multiset(r) == multiset(s)
  {
    if s == [] then []
    else
      assert s == s[..|s| - 1] + [s[|s| - 1]];
      Insert(s[|s| - 1], Sort(s[..|s| - 1]))
  }

  /** `sorted()` orders the list and keeps exactly its elements. */
  lemma {:induction false} SortSorted(s: seq<string>)
    ensures Sorted(Sort(s)) && multiset(Sort(s)) == multiset(s)
    decreases |s|
  {
    if s != [] {
      SortSorted(s[..|s| - 1]);
      InsertSorted(s[|s| - 1], Sort(s[..|s| - 1]));
    }
  }

  /** Two ascending lists with the same elements are the same list. */
  lemma {:induction false} SortedUnique(a: seq<string>, b: seq<string>)
    requires Sorted(a) && Sorted(b) && multiset(a) == multiset(b)
    ensures a == b
    decreases |a|
  {
    if a != [] {
      assert |b| == |a| by { assert |multiset(a)| == |multiset(b)|; }
      assert a[0] in multiset(b) && b[0] in multiset(a);
      SortedHeadIsLeast(b, a[0]);
      SortedHeadIsLeast(a, b[0]);
      if a[0] != b[0] {
        LessTotal(a[0], b[0]);
      }
      MultisetTail(a);
      MultisetTail(b);
      SortedUnique(a[1..], b[1..]);
      assert a == [a[0]] + a[1..] && b == [b[0]] + b[1..];
    }
  }

  lemma SortedHeadIsLeast(a: seq<string>, x: string)
    requires Sorted(a) && x in a
    ensures !Less(x, a[0])
  {
    var k :| 0 <= k < |a| && a[k] == x;
    if k == 0 {
      LessIrreflexive(x);
    }
  }

  lemma MultisetTail<T>(s: seq<T>)
    requires s != []
    ensures multiset(s[1..]) == multiset(s) - multiset{s[0]}
  {
    assert s == [s[0]] + s[1..];
  }

  // ---------------------------------------------------------------------
  // join, splitlines, iteration over a text file
  // ---------------------------------------------------------------------

  /** `sep.join(xs)` */
  function Join(sep: string, xs: seq<string>): string
  {
    if xs == [] then ""
    else if |xs| == 1 then xs[0]
    else xs[0] + sep + Join(sep, xs[1..])
  }

  lemma {:induction false} JoinSnoc(sep: string, xs: seq<string>, y: string)
    requires xs != []
    ensures Join(sep, xs + [y]) == Join(sep, xs) + sep + y
    decreases |xs|
  {
    if |xs| == 1 {
      assert xs + [y] == [xs[0], y];
    } else {
      assert (xs + [y])[1..] == xs[1..] + [y];
      JoinSnoc(sep, xs[1..], y);
    }
  }

  /** The characters at which `str.splitlines()` ends a line. */
  predicate IsLineBoundary(c: char)
  {
    c == '\n' || c == '\r' || c == '\U{0B}' || c == '\U{0C}' || c == '\U{1C}'
    || c == '\U{1D}' || c == '\U{1E}' || c == '\U{85}' || c == '\U{2028}' || c == '\U{2029}'
  }

  /** A line as splitlines() returns it: no boundary character inside. */
  predicate IsLine(l: string)
  {
    forall j :: 0 <= j < |l| ==> !IsLineBoundary(l[j])
  }

  function LineEnd(s: string, i: nat): (k: nat)
    requires i <= |s|
    ensures i <= k <= |s|
    ensures k < |s| ==> IsLineBoundary(s[k])
    ensures forall j :: i <= j < k ==> !IsLineBoundary(s[j])
    decreases |s| - i
  {
    if i == |s| || IsLineBoundary(s[i]) then i else LineEnd(s, i + 1)
  }

  /** `s.splitlines()`: "\r\n" counts as one boundary, no empty last line. */
  function SplitLines(s: string): (lines: seq<string>)
    ensures forall l :: l in lines ==> IsLine(l)
    decreases |s|
  {
    if s == [] then []
    else
      var k := LineEnd(s, 0);
      if k == |s| then [s]
      else
        var next := if s[k] == '\r' && k + 1 < |s| && s[k + 1] == '\n' then k + 2 else k + 1;
        [s[..k]] + SplitLines(s[next..])
  }

  /** Lines joined with "\n" split back into the same lines. */
  lemma {:induction false} SplitLinesJoin(lines: seq<string>)
    requires forall l :: l in lines ==> IsLine(l)
    requires lines == [] || lines[|lines| - 1] != ""
    ensures SplitLines(Join("\n", lines)) == lines
    decreases |lines|
  {
    if lines != [] {
      var s := Join("\n", lines);
      var l := lines[0];
      assert l in lines;
      if |lines| == 1 {
        assert s == l;
        LineEndIs(s, 0, |s|);
      } else {
        assert s == l + "\n" + Join("\n", lines[1..]);
        assert forall j :: 0 <= j < |l| ==> s[j] == l[j];
        LineEndIs(s, 0, |l|);
        assert s[..|l|] == l;
        assert s[|l| + 1..] == Join("\n", lines[1..]);
        SplitLinesJoin(lines[1..]);
      }
    }
  }

  lemma {:induction false} LineEndIs(s: string, i: nat, k: nat)
    requires i <= k <= |s|
    requires k == |s| || IsLineBoundary(s[k])
    requires forall j :: i <= j < k ==> !IsLineBoundary(s[j])
    ensures LineEnd(s, i) == k
    decreases k - i
  {
    if i < k {
      LineEndIs(s, i + 1, k);
    }
  }

  /**
   * The lines `for line in f` yields from a text file whose newlines are
   * already translated to "\n": every line but the last ends with "\n".
   */
  function ReadLines(s: string): (lines: seq<string>)
    ensures Join("", lines) == s
    ensures forall l :: l in lines ==> l != []
    decreases |s|
  {
    if s == [] then []
    else
      var k := NewlineEnd(s, 0);
      var rest := ReadLines(s[k..]);
      assert s == s[..k] + s[k..];
      if rest == [] then [s]
      else
        assert ([s[..k]] + rest)[1..] == rest;
        [s[..k]] + rest
  }

  /** One past the first "\n" at or after i, or |s|. */
  function NewlineEnd(s: string, i: nat): (k: nat)
    requires i < |s|
    ensures i < k <= |s|
    ensures forall j :: i <= j < k - 1 ==> s[j] != '\n'
    ensures k < |s| ==> s[k - 1] == '\n'
    decreases |s| - i
  {
    if s[i] == '\n' || i + 1 == |s| then i + 1 else NewlineEnd(s, i + 1)
  }

  // ---------------------------------------------------------------------
  // rsplit
  // ---------------------------------------------------------------------

  function LastIndexOf(s: string, c: char): (k: Option<nat>)
    ensures k.Some? ==> k.value < |s| && s[k.value] == c && c !in s[k.value + 1..]
    ensures k.None? ==> c !in s
  {
    if s == [] then None
    else if s[|s| - 1] == c then Some(|s| - 1)
    else
      var k := LastIndexOf(s[..|s| - 1], c);
      assert s == s[..|s| - 1] + [s[|s| - 1]];
      if k.Some? then
        assert s[k.value + 1..] == s[..|s| - 1][k.value + 1..] + [s[|s| - 1]];
        k
      else k
  }

  /** `s.rsplit(sep, maxsplit)` for a one-character separator. */
  function RSplit(s: string, sep: char, maxsplit: nat): (parts: seq<string>)
    ensures 1 <= |parts| <= maxsplit + 1
    ensures forall i :: 1 <= i < |parts| ==> sep !in parts[i]
    decreases maxsplit
  {
    if maxsplit == 0 then [s]
    else match LastIndexOf(s, sep)
      case None => [s]
      case Some(k) => RSplit(s[..k], sep, maxsplit - 1) + [s[k + 1..]]
  }

  /** The pieces rsplit returns join back into the string. */
  lemma {:induction false} RSplitJoin(s: string, sep: char, maxsplit: nat)
    ensures Join([sep], RSplit(s, sep, maxsplit)) == s
    decreases maxsplit
  {
    if maxsplit > 0 {
      match LastIndexOf(s, sep)
      case None =>
      case Some(k) =>
        var init := RSplit(s[..k], sep, maxsplit - 1);
        assert RSplit(s, sep, maxsplit) == init + [s[k + 1..]];
        RSplitJoin(s[..k], sep, maxsplit - 1);
        JoinSnoc([sep], init, s[k + 1..]);
        assert s[..k] + [sep] + s[k + 1..] == s;
    }
  }

  /** rsplit returns all maxsplit + 1 pieces exactly when sep occurs that often. */
  lemma {:induction false} RSplitFull(s: string, sep: char, maxsplit: nat)
    ensures |RSplit(s, sep, maxsplit)| == maxsplit + 1 <==> Count(s, sep) >= maxsplit
    decreases maxsplit
  {
    if maxsplit > 0 {
      match LastIndexOf(s, sep)
      case None =>
        CountAbsent(s, sep);
      case Some(k) =>
        RSplitFull(s[..k], sep, maxsplit - 1);
        CountSplit(s, sep, k);
    }
  }

  /** `s.split(sep)` for a one-character separator: the pieces between the separators. */
  function Split(s: string, sep: char): (parts: seq<string>)
    ensures |parts| >= 1
    decreases |s|
  {
    if s == [] then [""]
    else
      var rest := Split(s[1..], sep);
      if s[0] == sep then [""] + rest
      else [[s[0]] + rest[0]] + rest[1..]
  }

  /** The pieces split returns hold no separator and join back into the string. */
  lemma {:induction false} SplitJoin(s: string, sep: char)
    ensures Join([sep], Split(s, sep)) == s
    ensures forall i :: 0 <= i < |Split(s, sep)| ==> sep !in Split(s, sep)[i]
    decreases |s|
  {
    if s != [] {
      var rest := Split(s[1..], sep);
      SplitJoin(s[1..], sep);
      if s[0] == sep {
        assert ([""] + rest)[1..] == rest;
        assert s == [s[0]] + s[1..];
      } else {
        var parts := [[s[0]] + rest[0]] + rest[1..];
        if |rest| == 1 {
          assert parts == [[s[0]] + rest[0]];
        } else {
          assert parts[1..] == rest[1..];
          assert Join([sep], rest) == rest[0] + [sep] + Join([sep], rest[1..]);
        }
        assert s == [s[0]] + s[1..];
      }
    }
  }

  /** The number of occurrences of c in s. */
  function Count(s: string, c: char): nat
  {
    if s == [] then 0 else Count(s[..|s| - 1], c) + (if s[|s| - 1] == c then 1 else 0)
  }

  lemma {:induction false} CountAbsent(s: string, c: char)
    requires c !in s
    ensures Count(s, c) == 0
  {
    if s != [] {
      assert c !in s[..|s| - 1];
      CountAbsent(s[..|s| - 1], c);
    }
  }

  lemma {:induction false} CountSplit(s: string, c: char, k: nat)
    requires k < |s| && s[k] == c && c !in s[k + 1..]
    ensures Count(s, c) == Count(s[..k], c) + 1
    decreases |s|
  {
    if k == |s| - 1 {
      assert s[..|s| - 1] == s[..k];
    } else {
      assert s[..|s| - 1][k + 1..] == s[k + 1..|s| - 1];
      assert s[|s| - 1] == s[k + 1..][|s| - 2 - k];
      CountSplit(s[..|s| - 1], c, k);
      assert s[..|s| - 1][..k] == s[..k];
    }
  }

  // ---------------------------------------------------------------------
  // str(int) and int(str)
  // ---------------------------------------------------------------------

  predicate IsDigit(c: char)
  {
    '0' <= c <= '9'
  }

  function DigitChar(d: nat): (c: char)
    requires d < 10
    ensures IsDigit(c)
  {
    "0123456789"[d]
  }

  function DigitValue(c: char): nat
    requires IsDigit(c)
  {
    (c as int - '0' as int) as nat
  }

  function NatStr(n: nat): (s: string)
    ensures s != [] && forall j :: 0 <= j < |s| ==> IsDigit(s[j])
  {
    if n < 10 then [DigitChar(n)] else NatStr(n / 10) + [DigitChar(n % 10)]
  }

  /** `str(n)` for an int. */
  function IntStr(n: int): string
  {
    if n < 0 then "-" + NatStr(-n) else NatStr(n)
  }

  /** The characters `str.isspace()` accepts, which `int()` and `strip()` skip. */
  predicate IsSpace(c: char)
  {
    c == ' ' || c == '\t' || c == '\n' || c == '\r' || c == '\U{0B}' || c == '\U{0C}'
    || ('\U{1C}' <= c <= '\U{1F}') || c == '\U{85}' || c == '\U{A0}' || c == '\U{1680}'
    || ('\U{2000}' <= c <= '\U{200A}') || c == '\U{2028}' || c == '\U{2029}'
    || c == '\U{202F}' || c == '\U{205F}' || c == '\U{3000}'
  }

  function LStrip(s: string): string
  {
    if s != [] && IsSpace(s[0]) then LStrip(s[1..]) else s
  }

  function RStrip(s: string): string
  {
    if s != [] && IsSpace(s[|s| - 1]) then RStrip(s[..|s| - 1]) else s
  }

  /** `s.strip()` */
  function Strip(s: string): string
  {
    RStrip(LStrip(s))
  }

  /** Decimal digits, with single underscores allowed between two digits. */
  predicate WellFormedDigits(b: string)
  {
    b != [] && DigitsOrUnderscores(b)
    && forall i :: 0 <= i < |b| && b[i] == '_' ==> 0 < i < |b| - 1 && IsDigit(b[i - 1]) && IsDigit(b[i + 1])
  }

  predicate DigitsOrUnderscores(b: string)
  {
    forall i :: 0 <= i < |b| ==> IsDigit(b[i]) || b[i] == '_'
  }

  function DigitsValue(b: string): nat
    requires DigitsOrUnderscores(b)
  {
    if b == [] then 0
    else if b[|b| - 1] == '_' then DigitsValue(b[..|b| - 1])
    else DigitsValue(b[..|b| - 1]) * 10 + DigitValue(b[|b| - 1])
  }

  /** `int(s)` on a str, in base 10 with ASCII digits. */
  function ParseInt(s: string): (r: Result<int>)
  {
    var t := Strip(s);
    if t == [] then Err(PyError("ValueError"))
    else
      var body := if t[0] == '-' || t[0] == '+' then t[1..] else t;
      if !WellFormedDigits(body) then Err(PyError("ValueError"))
      else
        var v: int := DigitsValue(body);
        if t[0] == '-' then Ok(-v) else Ok(v)
  }

  lemma {:induction false} DigitsValueNatStr(n: nat)
    ensures DigitsValue(NatStr(n)) == n
  {
    var s := NatStr(n);
    if n >= 10 {
      DigitsValueNatStr(n / 10);
      assert s[..|s| - 1] == NatStr(n / 10);
    }
  }

  /** str(n) has no surrounding whitespace, so strip() gives it back, with or without a trailing newline. */
  lemma StripIntStr(n: int, tail: string)
    requires tail == "" || tail == "\n"
    ensures Strip(IntStr(n) + tail) == IntStr(n)
  {
    var s := IntStr(n);
    assert !IsSpace(s[0]) && !IsSpace(s[|s| - 1]);
    assert (s + tail)[0] == s[0];
    assert LStrip(s + tail) == s + tail;
    assert RStrip(s) == s;
    if tail == "\n" {
      assert (s + tail)[..|s + tail| - 1] == s;
      assert RStrip(s + tail) == RStrip(s);
    } else {
      assert s + tail == s;
    }
  }

  /** int(str(n)) == n, also when the text still ends with its "\n". */
  lemma ParseIntStr(n: int, tail: string)
    requires tail == "" || tail == "\n"
    ensures ParseInt(IntStr(n) + tail) == Ok(n)
  {
    var s := IntStr(n);
    var m: nat := if n < 0 then -n else n;
    StripIntStr(n, tail);
    assert WellFormedDigits(NatStr(m));
    DigitsValueNatStr(m);
    if n < 0 {
      assert s[1..] == NatStr(m);
    }
  }
}
