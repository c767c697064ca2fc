/**
 * String helpers with the meaning the original Python and TypeScript code gives them:
 * `str.strip()`, `str.lower()` on the characters that matter here, `in` on strings,
 * `str.split`, `os.path.basename`, `os.path.splitext` and `str(n)` for naturals.
 */
module Strings {
  import opened Common

  /** Python's `str.isspace` for one character (the Unicode White_Space set Python uses). */
  predicate IsSpace(c: char) {
    c == ' ' || c == '\t' || c == '\n' || c == '\r' || c == '\U{B}' || c == '\U{C}'
    || ('\U{1C}' <= c <= '\U{1F}') || c == '\U{85}' || c == '\U{A0}' || c == '\U{1680}'
    || ('\U{2000}' <= c <= '\U{200A}') || c == '\U{2028}' || c == '\U{2029}'
    || c == '\U{202F}' || c == '\U{205F}' || c == '\U{3000}'
  }

  /** `not s.strip()`: the string is empty or only whitespace. */
  predicate IsBlank(s: string) {
    forall i :: 0 <= i < |s| ==> IsSpace(s[i])
  }

  /** `s.lstrip()` */
  function TrimStart(s: string): (r: string)
    ensures |r| <= |s|
    decreases |s|
  {
    if |s| > 0 && IsSpace(s[0]) then TrimStart(s[1..]) else s
  }

  /** `s.lstrip()` removes a blank prefix and stops at the first non-space character. */
  lemma {:induction false} TrimStartSpec(s: string)
    ensures var r := TrimStart(s);
            && r == s[|s| - |r|..]
            && (r == [] || !IsSpace(r[0]))
            && IsBlank(s[..|s| - |r|])
    decreases |s|
  {
    if |s| > 0 && IsSpace(s[0]) {
      TrimStartSpec(s[1..]);
      var r := TrimStart(s[1..]);
      assert s[1..][..|s[1..]| - |r|] == s[1..|s| - |r|];
      assert s[1..][|s[1..]| - |r|..] == s[|s| - |r|..];
    }
  }

  /** `s.rstrip()` */
  function TrimEnd(s: string): (r: string)
    ensures |r| <= |s|
    decreases |s|
  {
    if |s| > 0 && IsSpace(s[|s| - 1]) then TrimEnd(s[..|s| - 1]) else s
  }

  /** `s.rstrip()` removes a blank suffix and stops at the last non-space character. */
  lemma {:induction false} TrimEndSpec(s: string)
    ensures var r := TrimEnd(s);
            && r == s[..|r|]
            && (r == [] || !IsSpace(r[|r| - 1]))
            && IsBlank(s[|r|..])
    decreases |s|
  {
    if |s| > 0 && IsSpace(s[|s| - 1]) {
      TrimEndSpec(s[..|s| - 1]);
      var r := TrimEnd(s[..|s| - 1]);
      assert s[|r|..] == s[..|s| - 1][|r|..] + [s[|s| - 1]];
      assert s[..|s| - 1][..|r|] == s[..|r|];
    }
  }

  /** `s.strip()` */
  function Strip(s: string): (r: string)
    ensures |r| <= |s|
  {
    TrimEnd(TrimStart(s))
  }

  /**
   * What `s.strip()` is: a slice of `s` that neither starts nor ends with whitespace and
   * is empty exactly when `s` is blank.
   */
  lemma StripSpec(s: string)
    ensures var r := Strip(s);
            && (r == [] || (!IsSpace(r[0]) && !IsSpace(r[|r| - 1])))
            && (r == [] <==> IsBlank(s))
            && exists i :: OccursAt(s, r, i)
  {
    var t := TrimStart(s);
    var r := TrimEnd(t);
    TrimStartSpec(s);
    TrimEndSpec(t);
    assert OccursAt(s, r, |s| - |t|);
    assert r == [] ==> s == s[..|s| - |t|] + t[|r|..];
    assert r != [] ==> r[0] == t[0];
  }

  /** Stripping is idempotent. */
  lemma StripIdempotent(s: string)
    ensures Strip(Strip(s)) == Strip(s)
  {
    StripSpec(s);
    var r := Strip(s);
    assert TrimStart(r) == r;
    assert TrimEnd(r) == r;
  }

  /** A string that neither starts nor ends with whitespace strips to itself. */
  lemma StripOfTrimmed(s: string)
    requires s == [] || (!IsSpace(s[0]) && !IsSpace(s[|s| - 1]))
    ensures Strip(s) == s
  {
  }

  /** ASCII `A`-`Z` lower-cased; every other character is left alone. */
  function LowerChar(c: char): (r: char)
    ensures 'A' <= c <= 'Z' ==> r as int == c as int + 32
    ensures !('A' <= c <= 'Z') ==> r == c
  {
    if 'A' <= c <= 'Z' then (c as int + 32) as char else c
  }

  /**
   * `s.lower()` restricted to ASCII letters. The model only compares lower-cased text
   * with ASCII words (file extensions, format names); no non-ASCII character lower-cases
   * to a single ASCII letter of those words, so the restriction does not change any
   * comparison made here.
   */
  function Lower(s: string): (r: string)
    ensures |r| == |s|
    ensures forall i :: 0 <= i < |s| ==> r[i] == LowerChar(s[i])
  {
    seq(|s|, i requires 0 <= i < |s| => LowerChar(s[i]))
  }

  /** Lower-casing twice is lower-casing once. */
  lemma LowerIdempotent(s: string)
    ensures Lower(Lower(s)) == Lower(s)
  {
    forall i | 0 <= i < |s|
      ensures Lower(Lower(s))[i] == Lower(s)[i]
    {
      var c := s[i];
      assert Lower(Lower(s))[i] == LowerChar(LowerChar(c));
    }
  }

  /** Lower-casing works character by character, so it distributes over concatenation. */
  lemma LowerAppend(a: string, b: string)
    ensures Lower(a + b) == Lower(a) + Lower(b)
  {
    forall i | 0 <= i < |a + b|
      ensures Lower(a + b)[i] == (Lower(a) + Lower(b))[i]
    {
      if i < |a| {
        assert (a + b)[i] == a[i];
      } else {
        assert (a + b)[i] == b[i - |a|];
      }
    }
  }

  /** The first `n` characters, or all of them when there are fewer (`s[:n]`). */
  function Take(s: string, n: nat): (r: string)
    ensures |r| == if |s| < n then |s| else n
    ensures StartsWith(s, r)
  {
    if |s| < n then s else s[..n]
  }

  /** `s.startswith(p)` */
  predicate StartsWith(s: string, p: string) {
    |p| <= |s| && s[..|p|] == p
  }

  /** `s.endswith(p)` */
  predicate EndsWith(s: string, p: string) {
    |p| <= |s| && s[|s| - |p|..] == p
  }

  /** `p in s` for two strings. */
  predicate Contains(s: string, p: string)
    decreases |s|
  {
    StartsWith(s, p) || (|s| > 0 && Contains(s[1..], p))
  }

  /** `p` occurs in `s` starting at position `i`. */
  predicate OccursAt(s: string, p: string, i: int) {
    0 <= i <= |s| - |p| && s[i..i + |p|] == p
  }

  /** `p in s` holds exactly when `p` occurs in `s` at some position. */
  lemma {:induction false} ContainsAt(s: string, p: string)
    ensures Contains(s, p) <==> exists i :: OccursAt(s, p, i)
    decreases |s|
  {
    if StartsWith(s, p) {
      assert OccursAt(s, p, 0);
    }
    if |s| > 0 {
      ContainsAt(s[1..], p);
      if Contains(s[1..], p) {
        var i :| OccursAt(s[1..], p, i);
        assert s[1..][i..i + |p|] == s[i + 1..i + 1 + |p|];
        assert OccursAt(s, p, i + 1);
      }
      if i :| OccursAt(s, p, i) && i > 0 {
        assert s[1..][i - 1..i - 1 + |p|] == s[i..i + |p|];
        assert OccursAt(s[1..], p, i - 1);
      }
      if i :| OccursAt(s, p, i) && i == 0 {
        assert StartsWith(s, p);
      }
    } else {
      if i :| OccursAt(s, p, i) {
        assert i == 0 && |p| == 0;
        assert StartsWith(s, p);
      }
    }
  }

  /** Whatever a string is followed or preceded by, a pattern it contains is still there. */
  lemma ContainsInLarger(a: string, p: string, b: string, c: string)
    requires Contains(a, p)
    ensures Contains(b + a + c, p)
  {
    ContainsAt(a, p);
    var i :| OccursAt(a, p, i);
    assert (b + a + c)[|b| + i..|b| + i + |p|] == a[i..i + |p|];
    assert OccursAt(b + a + c, p, |b| + i);
    ContainsAt(b + a + c, p);
  }

  /** A string that contains `a + p + b` contains `p`. */
  lemma ContainsPart(s: string, a: string, p: string, b: string)
    requires Contains(s, a + p + b)
    ensures Contains(s, p)
  {
    ContainsAt(s, a + p + b);
    var i :| OccursAt(s, a + p + b, i);
    var w := a + p + b;
    forall k | 0 <= k < |p|
      ensures s[i + |a| + k] == p[k]
    {
      assert s[i..i + |w|][|a| + k] == w[|a| + k];
    }
    assert s[i + |a|..i + |a| + |p|] == p;
    assert OccursAt(s, p, i + |a|);
    ContainsAt(s, p);
  }

  /** A pattern whose first character does not occur in `s` is not contained in it. */
  lemma NotContainsFirstChar(s: string, p: string)
    requires |p| > 0 && p[0] !in s
    ensures !Contains(s, p)
  {
    ContainsAt(s, p);
    forall i | 0 <= i <= |s| - |p|
      ensures !OccursAt(s, p, i)
    {
      assert s[i..i + |p|][0] == s[i];
    }
  }

  /** A one-character pattern is contained exactly when that character occurs. */
  lemma ContainsChar(s: string, c: char)
    ensures Contains(s, [c]) <==> c in s
  {
    ContainsAt(s, [c]);
    if c in s {
      var i :| 0 <= i < |s| && s[i] == c;
      assert s[i..i + 1] == [c];
      assert OccursAt(s, [c], i);
    }
    if i :| OccursAt(s, [c], i) {
      assert s[i] == s[i..i + 1][0];
    }
  }

  /** The position of the first `c` in `s`, or -1 (`s.find(c)`). */
  function Find(s: string, c: char): (r: int)
    ensures -1 <= r < |s|
    ensures r == -1 <==> c !in s
    ensures r >= 0 ==> s[r] == c && c !in s[..r]
  {
    if |s| == 0 then -1
    else if s[0] == c then 0
    else
      var k := Find(s[1..], c);
      if k == -1 then -1
      else
        assert s[..k + 1] == [s[0]] + s[1..][..k];
        k + 1
  }

  /** The position of the last `c` in `s`, or -1 (`s.rfind(c)`). */
  function RFind(s: string, c: char): (r: int)
    ensures -1 <= r < |s|
    ensures r == -1 <==> c !in s
    ensures r >= 0 ==> s[r] == c && c !in s[r + 1..]
    decreases |s|
  {
    if |s| == 0 then -1
    else if s[|s| - 1] == c then |s| - 1
    else
      var init := s[..|s| - 1];
      var k := RFind(init, c);
      assert s == init + [s[|s| - 1]];
      assert c in s <==> c in init;
      assert k >= 0 ==> s[k] == init[k] && s[k + 1..] == init[k + 1..] + [s[|s| - 1]];
      assert k >= 0 ==> c !in init[k + 1..] + [s[|s| - 1]];
      k
  }

  /** `s.split(c)` for a one-character separator: at least one piece, none containing `c`. */
  function Split(s: string, c: char): (r: seq<string>)
    ensures |r| >= 1
    ensures forall k :: 0 <= k < |r| ==> c !in r[k]
    decreases |s|
  {
    var i := Find(s, c);
    if i == -1 then [s] else [s[..i]] + Split(s[i + 1..], c)
  }

  /** Splitting a string that starts with a separator-free piece. */
  lemma SplitCons(a: string, c: char, rest: string)
    requires c !in a
    ensures Split(a + [c] + rest, c) == [a] + Split(rest, c)
  {
    var s := a + [c] + rest;
    assert s[|a|] == c;
    assert s[..|a|] == a;
    assert Find(s, c) == |a|;
    assert s[|a| + 1..] == rest;
  }

  /** Splitting a string that holds no separator. */
  lemma SplitNone(a: string, c: char)
    requires c !in a
    ensures Split(a, c) == [a]
  {
  }

  /** The text after the first `c` (`s.split(c, 1)[1]`); requires that `c` occurs. */
  function AfterFirst(s: string, c: char): (r: string)
    requires c in s
    ensures exists i :: 0 <= i < |s| && s[i] == c && c !in s[..i] && r == s[i + 1..]
  {
    var i := Find(s, c);
    s[i + 1..]
  }

  /** The first position of `sep` in `s`, or -1 (`s.find(sep)` for a string). */
  function FindStr(s: string, sep: string): (r: int)
    requires |sep| > 0
    ensures r == -1 || 0 <= r <= |s| - |sep|
    ensures r >= 0 ==> s[r..r + |sep|] == sep
    decreases |s|
  {
    if |s| < |sep| then -1
    else if s[..|sep|] == sep then 0
    else
      var k := FindStr(s[1..], sep);
      if k == -1 then -1
      else
        assert s[k + 1..k + 1 + |sep|] == s[1..][k..k + |sep|];
        k + 1
  }

  /** `s.split(sep)` for a non-empty string separator: at least one piece. */
  function SplitStr(s: string, sep: string): (r: seq<string>)
    requires |sep| > 0
    ensures |r| >= 1
    ensures FindStr(s, sep) == -1 ==> r == [s]
    decreases |s|
  {
    var i := FindStr(s, sep);
    if i == -1 then [s] else [s[..i]] + SplitStr(s[i + |sep|..], sep)
  }

  /** `"".join(parts)` */
  function Concat(parts: seq<string>): (r: string)
    ensures parts == [] ==> r == []
  {
    if parts == [] then [] else parts[0] + Concat(parts[1..])
  }

  /** Joining distributes over concatenation of the part lists. */
  lemma {:induction false} ConcatAppend(a: seq<string>, b: seq<string>)
    ensures Concat(a + b) == Concat(a) + Concat(b)
  {
    if a != [] {
      assert (a + b)[1..] == a[1..] + b;
      ConcatAppend(a[1..], b);
    } else {
      assert a + b == b;
    }
  }

  /** `sep.join(parts)` */
  function Join(parts: seq<string>, sep: string): string
    decreases |parts|
  {
    if parts == [] then []
    else if |parts| == 1 then parts[0]
    else parts[0] + sep + Join(parts[1..], sep)
  }

  /** Joining a list that starts with `a`. */
  lemma JoinCons(a: string, t: seq<string>, sep: string)
    requires |t| >= 1
    ensures Join([a] + t, sep) == a + sep + Join(t, sep)
  {
    assert ([a] + t)[1..] == t;
  }

  /** Joining one more part. */
  lemma JoinSnoc(parts: seq<string>, x: string, sep: string)
    ensures Join(parts + [x], sep) == if parts == [] then x else Join(parts, sep) + sep + x
    decreases |parts|
  {
    if |parts| >= 2 {
      JoinSnoc(parts[1..], x, sep);
      assert (parts + [x])[1..] == parts[1..] + [x];
      calc {
        Join(parts + [x], sep);
        parts[0] + sep + Join(parts[1..] + [x], sep);
        parts[0] + sep + (Join(parts[1..], sep) + sep + x);
        (parts[0] + sep + Join(parts[1..], sep)) + sep + x;
      }
    } else if |parts| == 1 {
      assert (parts + [x])[1..] == [x];
    }
  }

  /** Joining non-empty parts starts with the first part's first character and ends with the last part's last. */
  lemma {:induction false} JoinEnds(parts: seq<string>, sep: string)
    requires |parts| >= 1
    requires forall k :: 0 <= k < |parts| ==> parts[k] != []
    ensures var r := Join(parts, sep);
            && r != [] && r[0] == parts[0][0]
            && r[|r| - 1] == parts[|parts| - 1][|parts[|parts| - 1]| - 1]
    decreases |parts|
  {
    if |parts| >= 2 {
      JoinEnds(parts[1..], sep);
    }
  }

  /** Splitting on a character and joining with it gives the string back. */
  lemma {:induction false} SplitJoin(s: string, c: char)
    ensures Join(Split(s, c), [c]) == s
    decreases |s|
  {
    var i := Find(s, c);
    if i != -1 {
      SplitJoin(s[i + 1..], c);
      SplitJoinStep(s, c, i);
    }
  }

  /** One step of `SplitJoin`: the piece before the first `c`, then `c`, then the rest. */
  lemma SplitJoinStep(s: string, c: char, i: int)
    requires 0 <= i < |s| && i == Find(s, c)
    requires Join(Split(s[i + 1..], c), [c]) == s[i + 1..]
    ensures Join(Split(s, c), [c]) == s
  {
    var head, rest := s[..i], s[i + 1..];
    var t := Split(rest, c);
    assert Split(s, c) == [head] + t;
    JoinCons(head, t, [c]);
    AroundElement(s, i);
  }

  /** Joining lines that hold no separator and splitting again gives the lines back. */
  lemma {:induction false} JoinSplit(lines: seq<string>, c: char)
    requires |lines| >= 1
    requires forall k :: 0 <= k < |lines| ==> c !in lines[k]
    ensures Split(Join(lines, [c]), c) == lines
    decreases |lines|
  {
    if |lines| == 1 {
      SplitNone(lines[0], c);
    } else {
      var rest := Join(lines[1..], [c]);
      JoinSplit(lines[1..], c);
      assert Join(lines, [c]) == lines[0] + [c] + rest;
      SplitCons(lines[0], c, rest);
      assert [lines[0]] + lines[1..] == lines;
    }
  }

  /** `s.split(sep)` at a found separator: the piece before it, then the split of the rest. */
  lemma SplitStrStep(s: string, sep: string)
    requires |sep| > 0 && FindStr(s, sep) >= 0
    ensures SplitStr(s, sep) == [s[..FindStr(s, sep)]] + SplitStr(s[FindStr(s, sep) + |sep|..], sep)
  {
    var i := FindStr(s, sep);
    assert SplitStr(s, sep) == [s[..i]] + SplitStr(s[i + |sep|..], sep);
  }

  /** A string is rebuilt from the text around an occurrence of `sep`. */
  lemma AroundOccurrence(s: string, sep: string, i: int)
    requires OccursAt(s, sep, i)
    ensures s[..i] + sep + s[i + |sep|..] == s
  {
    assert s == s[..i] + s[i..i + |sep|] + s[i + |sep|..];
  }

  /** Splitting on a string and joining with it gives the string back. */
  lemma {:induction false} SplitStrJoin(s: string, sep: string)
    requires |sep| > 0
    ensures Join(SplitStr(s, sep), sep) == s
    decreases |s|
  {
    var i := FindStr(s, sep);
    if i != -1 {
      var rest := s[i + |sep|..];
      SplitStrJoin(rest, sep);
      SplitStrStep(s, sep);
      JoinCons(s[..i], SplitStr(rest, sep), sep);
      AroundOccurrence(s, sep, i);
    }
  }

  /** One decimal digit. */
  function DigitChar(d: nat): (c: char)
    requires d < 10
    ensures '0' <= c <= '9'
  {
    ('0' as int + d) as char
  }

  /** `str(n)` for a natural number: its decimal digits, without leading zeros. */
  function NatToString(n: nat): (r: string)
    ensures |r| >= 1
    ensures forall i :: 0 <= i < |r| ==> '0' <= r[i] <= '9'
    ensures |r| > 1 ==> r[0] != '0'
  {
    if n < 10 then [DigitChar(n)] else NatToString(n / 10) + [DigitChar(n % 10)]
  }

  /** Reading the digits back gives the number: decimal printing loses nothing. */
  function DigitsValue(s: string): nat
    requires forall i :: 0 <= i < |s| ==> '0' <= s[i] <= '9'
  {
    if s == [] then 0 else 10 * DigitsValue(s[..|s| - 1]) + (s[|s| - 1] as int - '0' as int)
  }

  lemma {:induction false} NatToStringValue(n: nat)
    ensures DigitsValue(NatToString(n)) == n
  {
    if n >= 10 {
      NatToStringValue(n / 10);
      var s := NatToString(n);
      assert s[..|s| - 1] == NatToString(n / 10);
    }
  }

  /** `os.path.basename(p)` on POSIX: the text after the last `/`. */
  function Basename(p: string): (r: string)
    ensures '/' !in r
    ensures EndsWith(p, r)
    ensures '/' !in p ==> r == p
    ensures '/' in p ==> |r| < |p| && p[|p| - |r| - 1] == '/'
  {
    var i := RFind(p, '/');
    p[i + 1..]
  }

  /** The last `c` of `p` seen from a suffix `p[j..]`: the same position, shifted by `j`. */
  lemma RFindSuffix(p: string, j: nat, c: char)
    requires j <= |p|
    ensures c in p[j..] ==> RFind(p, c) == j + RFind(p[j..], c)
    ensures c !in p[j..] ==> RFind(p, c) < j
  {
    var q := p[j..];
    if c in q {
      assert p[j + RFind(q, c)] == c;
    }
  }

  /** A last component with a dot: its last dot is the path's, and the text before it decides. */
  lemma ExtStartDottedComponent(p: string, sep: int)
    requires sep == RFind(p, '/') && '.' in p[sep + 1..]
    ensures var b := p[sep + 1..]; p[RFind(p, '.')..] == b[RFind(b, '.')..]
    ensures ExtStart(p) == if HasExtension(p[sep + 1..]) then RFind(p, '.') else -1
  {
    var b := p[sep + 1..];
    var d := RFind(b, '.');
    var dot := RFind(p, '.');
    assert dot == sep + 1 + d by {
      RFindSuffix(p, sep + 1, '.');
    }
    SliceParts(p, sep + 1, d);
    assert HasExtension(b) == !AllDots(p[sep + 1..dot]);
    assert ExtStart(p) == if !AllDots(p[sep + 1..dot]) then dot else -1;
  }

  /** A last component without a dot: the path has no extension. */
  lemma ExtStartDotlessComponent(p: string, sep: int)
    requires sep == RFind(p, '/') && '.' !in p[sep + 1..]
    ensures ExtStart(p) == -1
  {
    RFindSuffix(p, sep + 1, '.');
  }

  /** The extension seen from the basename: it starts at the basename's last dot. */
  lemma ExtStartBasename(p: string)
    ensures ExtStart(p) != -1 <==> HasExtension(Basename(p))
    ensures var b := Basename(p);
      ExtStart(p) != -1 ==> p[ExtStart(p)..] == b[RFind(b, '.')..]
  {
    var sep := RFind(p, '/');
    assert Basename(p) == p[sep + 1..];
    if '.' in p[sep + 1..] {
      ExtStartDottedComponent(p, sep);
    } else {
      ExtStartDotlessComponent(p, sep);
    }
  }

  /** Cutting a suffix `p[i..]` at `d` cuts `p` at `i + d`. */
  lemma SliceParts(p: string, i: nat, d: nat)
    requires i + d <= |p|
    ensures p[i..][..d] == p[i..i + d] && p[i..][d..] == p[i + d..]
  {
  }

  /** True when every character of `s` is a `.` */
  predicate AllDots(s: string) {
    forall i :: 0 <= i < |s| ==> s[i] == '.'
  }

  /**
   * A last path component with an extension: it has a dot, and something other than dots
   * comes before its last dot (a leading-dot name such as `.bashrc` has none).
   */
  predicate HasExtension(name: string) {
    '.' in name && !AllDots(name[..RFind(name, '.')])
  }

  /** Where `os.path.splitext` starts the extension of `p`, or -1 when it has none. */
  function ExtStart(p: string): (r: int)
    ensures r == -1 || (0 <= r < |p| && p[r] == '.' && '/' !in p[r..] && '.' !in p[r + 1..])
  {
    var sep := RFind(p, '/');
    var dot := RFind(p, '.');
    if dot > sep && !AllDots(p[sep + 1..dot]) then
      assert '/' !in p[dot..] by {
        assert forall j :: dot <= j < |p| ==> p[j] == p[sep + 1..][j - sep - 1];
      }
      dot
    else -1
  }

  /**
   * `os.path.splitext(p)` on POSIX: the extension starts at the last `.` of the last
   * path component, unless every character of that component before the dot is a dot.
   */
  function SplitExt(p: string): (r: (string, string))
    ensures r.0 + r.1 == p
    ensures r.1 == [] || (r.1[0] == '.' && '/' !in r.1 && '.' !in r.1[1..])
  {
    var k := ExtStart(p);
    if k == -1 then (p, [])
    else
      assert p[..k] + p[k..] == p;
      assert p[k..][1..] == p[k + 1..];
      (p[..k], p[k..])
  }

  /**
   * The extension `splitext` reports is non-empty exactly when the basename has one, and
   * it is then the basename from its last dot on.
   */
  lemma SplitExtBasename(p: string)
    ensures SplitExt(p).1 != [] <==> HasExtension(Basename(p))
    ensures var b := Basename(p);
      SplitExt(p).1 != [] ==> SplitExt(p).1 == b[RFind(b, '.')..]
  {
    ExtStartBasename(p);
  }
}
