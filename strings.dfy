/**
 * The few Python string built-ins the parser and the serializer rely on:
 * `str.strip()`, `str.split(sep, maxsplit=1)`, `str.splitlines()`,
 * `sep.join(parts)` and `s * n`.
 *
 * Simplifications: whitespace is the fixed ASCII set below (Python's
 * `strip` also removes Unicode spaces), and lines are separated by '\n'
 * only (Python's `splitlines` also breaks at '\r', '\v', '\f', '\x1c'..'\x1e',
 * '\x85', U+2028 and U+2029).
 */
module Strings {
  import opened Wrappers

  /** The characters `str.strip()` removes, restricted to ASCII. */
  predicate IsSpace(c: char) {
    c == ' ' || c == '\t' || c == '\n' || c == '\r' || c == '\U{000B}' || c == '\U{000C}'
  }

  predicate AllSpace(s: string) {
    forall i | 0 <= i < |s| :: IsSpace(s[i])
  }

  predicate NoNewline(s: string) {
    forall i | 0 <= i < |s| :: s[i] != '\n'
  }

  /** `s.lstrip()`: the longest suffix of `s` that does not start with whitespace. */
  function TrimStart(s: string): (r: string)
    ensures |r| <= |s| && r == s[|s| - |r|..]
    ensures AllSpace(s[..|s| - |r|])
    ensures r == [] || !IsSpace(r[0])
  {
    if s != [] && IsSpace(s[0]) then TrimStart(s[1..]) else s
  }

  /** `s.rstrip()`: the longest prefix of `s` that does not end with whitespace. */
  function TrimEnd(s: string): (r: string)
    ensures |r| <= |s| && r == s[..|r|]
    ensures AllSpace(s[|r|..])
    ensures r == [] || !IsSpace(r[|r| - 1])
  {
    if s != [] && IsSpace(s[|s| - 1]) then TrimEnd(s[..|s| - 1]) else s
  }

  /** `s.strip()` */
  function Strip(s: string): (r: string)
    ensures r == [] || (!IsSpace(r[0]) && !IsSpace(r[|r| - 1]))
    ensures NoNewline(s) ==> NoNewline(r)
  {
    var t := TrimStart(s);
    var r := TrimEnd(t);
    assert r == s[|s| - |t|..][..|r|];
    r
  }

  lemma {:induction false} TrimStartAfterSpace(p: string, s: string)
    requires AllSpace(p)
    ensures TrimStart(p + s) == TrimStart(s)
    decreases |p|
  {
    if p != [] {
      assert (p + s)[1..] == p[1..] + s;
      TrimStartAfterSpace(p[1..], s);
    } else {
      assert p + s == s;
    }
  }

  lemma {:induction false} TrimEndBeforeSpace(s: string, q: string)
    requires AllSpace(q)
    ensures TrimEnd(s + q) == TrimEnd(s)
    decreases |q|
  {
    if q != [] {
      assert (s + q)[..|s + q| - 1] == s + q[..|q| - 1];
      TrimEndBeforeSpace(s, q[..|q| - 1]);
    } else {
      assert s + q == s;
    }
  }

  /**
   * Stripping removes exactly the surrounding whitespace: if `m` neither
   * starts nor ends with whitespace, then padding it with whitespace on
   * either side and stripping gives `m` back.
   */
  lemma StripExact(p: string, m: string, q: string)
    requires AllSpace(p) && AllSpace(q)
    requires m == [] || (!IsSpace(m[0]) && !IsSpace(m[|m| - 1]))
    ensures Strip(p + m + q) == m
  {
    assert p + m + q == p + (m + q);
    TrimStartAfterSpace(p, m + q);
    if m == [] {
      assert m + q == q + [];
      TrimStartAfterSpace(q, []);
    } else {
      assert TrimStart(m + q) == m + q;
      TrimEndBeforeSpace(m, q);
    }
  }

  lemma AllSpaceConcat(x: string, y: string)
    requires AllSpace(x) && AllSpace(y)
    ensures AllSpace(x + y)
  {
    forall i | 0 <= i < |x + y| ensures IsSpace((x + y)[i]) {
      if i >= |x| {
        assert (x + y)[i] == y[i - |x|];
      }
    }
  }

  lemma TrimStartSplits(s: string) returns (a: string)
    ensures AllSpace(a) && s == a + TrimStart(s)
  {
    a := s[..|s| - |TrimStart(s)|];
  }

  lemma TrimEndSplits(s: string) returns (b: string)
    ensures AllSpace(b) && s == TrimEnd(s) + b
  {
    b := s[|TrimEnd(s)|..];
  }

  /** A string is its stripped form with whitespace on either side. */
  lemma StripSplits(s: string) returns (a: string, b: string)
    ensures AllSpace(a) && AllSpace(b)
    ensures s == a + Strip(s) + b
  {
    a := TrimStartSplits(s);
    var t := TrimStart(s);
    b := TrimEndSplits(t);
    assert Strip(s) == TrimEnd(t);
    Regroup3(a, TrimEnd(t), b);
  }

  lemma Regroup3(a: string, m: string, b: string)
    ensures a + (m + b) == a + m + b
  {
  }

  lemma Regroup(p: string, a: string, r: string, b: string, q: string)
    ensures (p + a) + r + (b + q) == p + (a + r + b) + q
  {
    assert (p + a) + r == p + (a + r);
    assert p + (a + r) + (b + q) == p + (a + r) + b + q;
    assert p + (a + r) + b == p + (a + r + b);
  }

  /** Whitespace around a line never changes what it strips to. */
  lemma StripIgnoresPadding(p: string, s: string, q: string)
    requires AllSpace(p) && AllSpace(q)
    ensures Strip(p + s + q) == Strip(s)
  {
    var a, b := StripSplits(s);
    var r := Strip(s);
    AllSpaceConcat(p, a);
    AllSpaceConcat(b, q);
    var padded := (p + a) + r + (b + q);
    Regroup(p, a, r, b, q);
    assert padded == p + s + q;
    StripExact(p + a, r, b + q);
    assert Strip(padded) == r;
  }

  lemma StripSpace(s: string)
    requires AllSpace(s)
    ensures Strip(s) == ""
  {
    StripIgnoresPadding(s, "", "");
    assert s + "" + "" == s;
  }

  lemma StripEmptySpace(s: string)
    requires Strip(s) == ""
    ensures AllSpace(s)
  {
    var a, b := StripSplits(s);
    assert s == a + b;
    AllSpaceConcat(a, b);
  }

  /** A line strips to nothing exactly when it is whitespace only. */
  lemma StripEmpty(s: string)
    ensures Strip(s) == "" <==> AllSpace(s)
  {
    if AllSpace(s) {
      StripSpace(s);
    }
    if Strip(s) == "" {
      StripEmptySpace(s);
    }
  }

  /** The index of the first occurrence of `c` in `s`, if any. */
  function Find(s: string, c: char): (r: Option<nat>)
    ensures r.None? <==> c !in s
    ensures r.Some? ==> r.value < |s| && s[r.value] == c && c !in s[..r.value]
  {
    if s == [] then None
    else if s[0] == c then Some(0)
    else match Find(s[1..], c)
      case None => None
      case Some(i) =>
        assert s[..i + 1] == [s[0]] + s[1..][..i];
        Some(i + 1)
  }

  /** `s.split(sep, maxsplit=1)`: split at the first `sep` only. */
  function SplitOnce(s: string, sep: char): (parts: seq<string>)
    ensures sep !in s ==> parts == [s]
    ensures sep in s ==> |parts| == 2 && s == parts[0] + [sep] + parts[1] && sep !in parts[0]
  {
    match Find(s, sep)
    case None => [s]
    case Some(i) =>
      assert s == s[..i] + [sep] + s[i + 1..];
      [s[..i], s[i + 1..]]
  }

  /** `sep.join(parts)` */
  function Join(parts: seq<string>, sep: string): (r: string)
  {
    if parts == [] then ""
    else if |parts| == 1 then parts[0]
    else parts[0] + sep + Join(parts[1..], sep)
  }

  /** A joined text starts with its first part. */
  lemma {:induction false} JoinFirst(parts: seq<string>, sep: string)
    requires parts != []
    ensures |parts[0]| <= |Join(parts, sep)| && Join(parts, sep)[..|parts[0]|] == parts[0]
  {
    if |parts| > 1 {
      assert Join(parts, sep) == parts[0] + (sep + Join(parts[1..], sep));
    }
  }

  /** A joined text ends with its last part. */
  lemma {:induction false} JoinLast(parts: seq<string>, sep: string)
    requires parts != []
    ensures var l := parts[|parts| - 1]; var r := Join(parts, sep);
      |l| <= |r| && r[|r| - |l|..] == l
    decreases |parts|
  {
    if |parts| > 1 {
      var rest := parts[1..];
      JoinLast(rest, sep);
      assert rest[|rest| - 1] == parts[|parts| - 1];
      assert Join(parts, sep) == (parts[0] + sep) + Join(rest, sep);
    }
  }

  lemma {:induction false} JoinAppend(a: seq<string>, b: seq<string>, sep: string)
    requires a != [] && b != []
    ensures Join(a + b, sep) == Join(a, sep) + sep + Join(b, sep)
    decreases |a|
  {
    if |a| == 1 {
      assert (a + b)[1..] == b;
    } else {
      assert (a + b)[1..] == a[1..] + b;
      JoinAppend(a[1..], b, sep);
    }
  }

  /** `s.split(sep)`: every piece between separators, so never empty. */
  function SplitAll(s: string, sep: char): (parts: seq<string>)
    ensures |parts| > 0
    ensures forall i | 0 <= i < |parts| :: sep !in parts[i]
    ensures Join(parts, [sep]) == s
    decreases |s|
  {
    match Find(s, sep)
    case None => [s]
    case Some(i) =>
      var rest := SplitAll(s[i + 1..], sep);
      assert ([s[..i]] + rest)[1..] == rest;
      assert s == s[..i] + [sep] + s[i + 1..];
      [s[..i]] + rest
  }

  lemma FindAfter(head: string, sep: char, tail: string)
    requires sep !in head
    ensures Find(head + [sep] + tail, sep) == Some(|head|)
  {
    var s := head + [sep] + tail;
    assert s[|head|] == sep;
    assert s[..|head|] == head;
  }

  lemma {:induction false} SplitAllJoin(parts: seq<string>, sep: char)
    requires parts != []
    requires forall i | 0 <= i < |parts| :: sep !in parts[i]
    ensures SplitAll(Join(parts, [sep]), sep) == parts
    decreases |parts|
  {
    var s := Join(parts, [sep]);
    if |parts| == 1 {
      assert Find(s, sep).None?;
    } else {
      var head := parts[0];
      var tail := Join(parts[1..], [sep]);
      assert s == head + [sep] + tail;
      FindAfter(head, sep, tail);
      assert s[..|head|] == head;
      assert s[|head| + 1..] == tail;
      SplitAllJoin(parts[1..], sep);
      assert SplitAll(s, sep) == [head] + parts[1..];
      assert parts == [parts[0]] + parts[1..];
    }
  }

  /**
   * `s.splitlines()` for '\n' line ends: the text between newlines, with no
   * extra empty line after a final newline.
   */
  function SplitLines(s: string): (lines: seq<string>)
    ensures forall i | 0 <= i < |lines| :: NoNewline(lines[i])
    ensures s == Join(lines, "\n") || s == Join(lines, "\n") + "\n"
  {
    if s == [] then []
    else
      var parts := SplitAll(s, '\n');
      assert forall i | 0 <= i < |parts| :: NoNewline(parts[i]) by {
        forall i | 0 <= i < |parts| ensures NoNewline(parts[i]) {
          assert '\n' !in parts[i];
        }
      }
      if parts[|parts| - 1] == [] then
        var lines := parts[..|parts| - 1];
        if lines == [] then
          assert false;
          []
        else
          assert parts == lines + [[]];
          JoinAppend(lines, [[]], "\n");
          lines
      else parts
  }

  /** Splitting joined lines gives them back, except a final empty line. */
  lemma SplitLinesJoin(lines: seq<string>)
    requires forall i | 0 <= i < |lines| :: NoNewline(lines[i])
    ensures SplitLines(Join(lines, "\n")) ==
      if lines != [] && lines[|lines| - 1] == [] then lines[..|lines| - 1] else lines
  {
    var s := Join(lines, "\n");
    if lines == [] || lines == [[]] {
      assert s == [];
    } else {
      forall i | 0 <= i < |lines| ensures '\n' !in lines[i] {
        assert NoNewline(lines[i]);
      }
      SplitAllJoin(lines, '\n');
      assert SplitAll(s, '\n') == lines;
      JoinNonEmpty(lines, "\n");
    }
  }

  /** Joined lines make an empty text only when there is at most one line and it is empty. */
  lemma JoinNonEmpty(lines: seq<string>, sep: string)
    requires |sep| > 0 && lines != [] && lines != [[]]
    ensures Join(lines, sep) != []
  {
    if |lines| > 1 {
      assert |Join(lines, sep)| >= |sep|;
    }
  }

  /** `s * n` */
  function Repeat(s: string, n: nat): (r: string)
    ensures forall i | 0 <= i < |r| :: r[i] in s
  {
    if n == 0 then "" else s + Repeat(s, n - 1)
  }

  lemma MulSucc(n: nat, m: nat)
    requires n > 0
    ensures n * m == m + (n - 1) * m
  {
  }

  /** `s * n` is `n * len(s)` characters long. */
  lemma {:induction false} RepeatLength(s: string, n: nat)
    ensures |Repeat(s, n)| == n * |s|
  {
    if n > 0 {
      RepeatLength(s, n - 1);
      MulSucc(n, |s|);
    }
  }

  /** `s * (m + n) == s * m + s * n`, and `s * 1 == s`: so `s * n` is `n` copies of `s`. */
  lemma {:induction false} RepeatAdd(s: string, m: nat, n: nat)
    ensures Repeat(s, m + n) == Repeat(s, m) + Repeat(s, n)
    ensures Repeat(s, 1) == s
    decreases m
  {
    if m > 0 {
      RepeatAdd(s, m - 1, n);
      assert m + n - 1 == (m - 1) + n;
    }
  }

  lemma RepeatSpace(s: string, n: nat)
    requires AllSpace(s) && NoNewline(s)
    ensures AllSpace(Repeat(s, n)) && NoNewline(Repeat(s, n))
  {
    var r := Repeat(s, n);
    forall i | 0 <= i < |r| ensures IsSpace(r[i]) && r[i] != '\n' {
      var j :| 0 <= j < |s| && s[j] == r[i];
    }
  }
}
