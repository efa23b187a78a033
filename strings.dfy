/** The PHP string built-ins that the catalog endpoint relies on, with their
    single-byte behaviour: strtolower, str_replace of a backslash, substr,
    explode/implode on one delimiter, trim, basename and
    SplFileInfo::getExtension, plus PHP's truthiness of strings. */
module Strings {

  /** The ASCII case mapping of one character. */
  function LowerChar(c: char): char {
    if 'A' <= c <= 'Z' then (c as int + 32) as char else c
  }

  function UpperChar(c: char): char {
    if 'a' <= c <= 'z' then (c as int - 32) as char else c
  }

  lemma LowerOfUpper(c: char)
    ensures LowerChar(UpperChar(c)) == LowerChar(c)
  {
  }

  /** strtolower: the ASCII letters A-Z become a-z, every other character is kept. */
  function Lower(s: string): (r: string)
    ensures |r| == |s|
    ensures forall i :: 0 <= i < |r| ==> !('A' <= r[i] <= 'Z')
    ensures forall i :: 0 <= i < |s| ==> r[i] == LowerChar(s[i])
  {
    seq(|s|, i requires 0 <= i < |s| => LowerChar(s[i]))
  }

  /** str_replace('\\', '/', s): every backslash becomes a forward slash. */
  function ReplaceBackslashes(s: string): (r: string)
    ensures |r| == |s| && '\\' !in r
    ensures forall i :: 0 <= i < |s| ==> r[i] == if s[i] == '\\' then '/' else s[i]
  {
    seq(|s|, i requires 0 <= i < |s| => if s[i] == '\\' then '/' else s[i])
  }

  lemma ReplaceBackslashesConcat(a: string, b: string)
    ensures ReplaceBackslashes(a + b) == ReplaceBackslashes(a) + ReplaceBackslashes(b)
  {
    var l, r := ReplaceBackslashes(a + b), ReplaceBackslashes(a) + ReplaceBackslashes(b);
    assert |l| == |r|;
    forall i | 0 <= i < |l| ensures l[i] == r[i] {
      if i < |a| {
        assert (a + b)[i] == a[i];
      } else {
        assert (a + b)[i] == b[i - |a|];
      }
    }
  }

  /** substr(s, start) for a non-negative start: the characters from start on,
      and the empty string when start lies beyond the end (PHP 8). */
  function Substr(s: string, start: nat): (r: string)
    ensures start <= |s| ==> s == s[..start] + r
    ensures start > |s| ==> r == []
  {
    if start <= |s| then s[start..] else []
  }

  /** PHP's truthiness of a string: "" and "0" are falsy, everything else is truthy. */
  predicate Falsy(s: string) {
    s == "" || s == "0"
  }

  // ---------------------------------------------------------------------------
  // explode / implode on a one-character delimiter

  function IndexOf(s: string, c: char): (i: nat)
    requires c in s
    ensures i < |s| && s[i] == c && c !in s[..i]
  {
    if s[0] == c then 0 else 1 + IndexOf(s[1..], c)
  }

  lemma IndexOfUnique(s: string, c: char, i: nat)
    requires i < |s| && s[i] == c && c !in s[..i]
    ensures IndexOf(s, c) == i
  {
    var j := IndexOf(s, c);
    assert forall k :: 0 <= k < i ==> s[..i][k] == s[k];
    assert forall k :: 0 <= k < j ==> s[..j][k] == s[k];
  }

  /** explode(d, s): the pieces of s between occurrences of d, in order;
      there is always at least one piece. */
  function Explode(s: string, d: char): (parts: seq<string>)
    ensures |parts| >= 1
    ensures forall k :: 0 <= k < |parts| ==> d !in parts[k]
    decreases |s|
  {
    if d !in s then [s]
    else
      var i := IndexOf(s, d);
      [s[..i]] + Explode(s[i + 1..], d)
  }

  /** implode(d, parts): the pieces glued together with d between neighbours. */
  function Implode(parts: seq<string>, d: char): string
    requires |parts| >= 1
  {
    if |parts| == 1 then parts[0] else parts[0] + [d] + Implode(parts[1..], d)
  }

  /** Gluing the pieces of explode back together gives the original string. */
  lemma {:induction false} ImplodeExplode(s: string, d: char)
    ensures Implode(Explode(s, d), d) == s
    decreases |s|
  {
    if d in s {
      var i := IndexOf(s, d);
      ImplodeExplode(s[i + 1..], d);
      assert Explode(s, d)[1..] == Explode(s[i + 1..], d);
      assert s == s[..i] + [d] + s[i + 1..];
    }
  }

  /** explode splits at the first delimiter. */
  lemma ExplodeAt(s: string, d: char, i: nat)
    requires i < |s| && s[i] == d && d !in s[..i]
    ensures Explode(s, d) == [s[..i]] + Explode(s[i + 1..], d)
  {
    assert d in s;
    IndexOfUnique(s, d, i);
  }

  /** Pieces that do not contain the delimiter are recovered by explode. */
  lemma {:induction false} ExplodeImplode(parts: seq<string>, d: char)
    requires |parts| >= 1
    requires forall k :: 0 <= k < |parts| ==> d !in parts[k]
    ensures Explode(Implode(parts, d), d) == parts
  {
    if |parts| > 1 {
      var rest := Implode(parts[1..], d);
      var s := parts[0] + [d] + rest;
      assert Implode(parts, d) == s;
      var i := |parts[0]|;
      assert s[..i] == parts[0] && s[i] == d && s[i + 1..] == rest;
      ExplodeAt(s, d, i);
      ExplodeImplode(parts[1..], d);
      assert parts == [parts[0]] + parts[1..];
    }
  }

  // ---------------------------------------------------------------------------
  // trim with PHP's default character list " \t\n\r\0\x0B"

  predicate IsTrimChar(c: char) {
    c == ' ' || c == '\t' || c == '\n' || c == '\r' || c == '\0' || c == '\U{B}'
  }

  predicate AllTrimChars(s: string) {
    forall i :: 0 <= i < |s| ==> IsTrimChar(s[i])
  }

  /** Neither end of s is a trim character. */
  predicate IsTrimmed(s: string) {
    s == [] || (!IsTrimChar(s[0]) && !IsTrimChar(s[|s| - 1]))
  }

  /** Number of trim characters at the start of s. */
  function LeadingTrimLength(s: string): (n: nat)
    ensures n <= |s| && AllTrimChars(s[..n])
    ensures n < |s| ==> !IsTrimChar(s[n])
  {
    if s != [] && IsTrimChar(s[0]) then
      var n := 1 + LeadingTrimLength(s[1..]);
      assert s[..n] == [s[0]] + s[1..][..n - 1];
      n
    else 0
  }

  /** Length of s without the trim characters at its end. */
  function TrailingTrimStart(s: string): (n: nat)
    ensures n <= |s| && AllTrimChars(s[n..])
    ensures 0 < n ==> !IsTrimChar(s[n - 1])
  {
    if s != [] && IsTrimChar(s[|s| - 1]) then
      var n := TrailingTrimStart(s[..|s| - 1]);
      assert s[n..] == s[..|s| - 1][n..] + [s[|s| - 1]];
      n
    else |s|
  }

  /** trim(s): s without the trim characters at either end; it is the slice of
      s between two runs of trim characters, and neither of its ends is one. */
  function Trim(s: string): (r: string)
    ensures IsTrimmed(r)
    ensures exists i, j :: 0 <= i <= j <= |s| && r == s[i..j] && AllTrimChars(s[..i]) && AllTrimChars(s[j..])
  {
    var i := LeadingTrimLength(s);
    var t := s[i..];
    var j := TrailingTrimStart(t);
    assert t[..j] == s[i..i + j] && t[j..] == s[i + j..];
    if j == 0 then
      assert AllTrimChars(s[..|s|]) by {
        assert s[..|s|] == s[..i] + t;
      }
      assert s[|s|..|s|] == [];
      []
    else
      t[..j]
  }

  /** A string with no trim character at either end is left alone by trim. */
  lemma TrimOfTrimmed(s: string)
    requires IsTrimmed(s)
    ensures Trim(s) == s
  {
    assert LeadingTrimLength(s) == 0;
    assert s[0..] == s;
  }

  // ---------------------------------------------------------------------------
  // basename and getExtension

  /** The part of s after the last c: the longest suffix of s without a c. */
  function AfterLast(s: string, c: char): (r: string)
    ensures c !in r
    ensures |r| <= |s| && r == s[|s| - |r|..]
    ensures |r| < |s| ==> s[|s| - |r| - 1] == c
  {
    if s == [] || s[|s| - 1] == c then []
    else AfterLast(s[..|s| - 1], c) + [s[|s| - 1]]
  }

  lemma AfterLastOfJoin(p: string, c: char, q: string)
    requires c !in q
    ensures AfterLast(p + [c] + q, c) == q
  {
    var s := p + [c] + q;
    assert s[|s| - |q| - 1] == c;
    assert forall k :: |s| - |q| <= k < |s| ==> s[k] == q[k - (|s| - |q|)];
    assert s[|s| - |q|..] == q;
  }

  lemma AfterLastOfFree(s: string, c: char)
    requires c !in s
    ensures AfterLast(s, c) == s
  {
    assert forall k :: 0 <= k < |s| ==> s[k] in s;
    assert s[0..] == s;
  }

  /** s without the run of c at its end. */
  function StripTrailing(s: string, c: char): (r: string)
    ensures |r| <= |s| && r == s[..|r|]
    ensures r == [] || r[|r| - 1] != c
    ensures forall i :: |r| <= i < |s| ==> s[i] == c
  {
    if s != [] && s[|s| - 1] == c then StripTrailing(s[..|s| - 1], c) else s
  }

  /** basename(path) on a system whose directory separator is '/': the last
      run of characters that are not '/', or "" when there is none. */
  function Basename(path: string): (r: string)
    ensures '/' !in r
    ensures |r| <= |path|
  {
    AfterLast(StripTrailing(path, '/'), '/')
  }

  /** basename gives back a name that has no directory component. */
  lemma BasenameOfName(name: string)
    requires '/' !in name
    ensures Basename(name) == name
  {
    if name != [] {
      assert name[|name| - 1] in name;
    }
    AfterLastOfFree(name, '/');
  }

  /** basename strips every leading directory component. */
  lemma BasenameOfChild(dir: string, name: string)
    requires name != [] && '/' !in name
    ensures Basename(dir + "/" + name) == name
  {
    assert name[|name| - 1] in name;
    AfterLastOfJoin(dir, '/', name);
  }

  lemma BasenameIdempotent(path: string)
    ensures Basename(Basename(path)) == Basename(path)
  {
    BasenameOfName(Basename(path));
  }

  /** SplFileInfo::getExtension: what follows the last '.' of the file name,
      or "" when the name has no '.'. */
  function Extension(name: string): (r: string)
    ensures '.' !in r
    ensures '.' !in name ==> r == []
  {
    if '.' in name then AfterLast(name, '.') else []
  }

  lemma ExtensionOf(stem: string, ext: string)
    requires '.' !in ext
    ensures Extension(stem + "." + ext) == ext
  {
    assert (stem + "." + ext)[|stem|] == '.';
    AfterLastOfJoin(stem, '.', ext);
  }
}
