/** Path and file-name strings as the scan processor builds and inspects them.
    The processor runs on a POSIX host, so PHP's DIRECTORY_SEPARATOR is '/'. */
module Paths {

  /** PHP's DIRECTORY_SEPARATOR. */
  const Sep: char := '/'

  /** A name that can sit directly inside a directory. */
  predicate NoSep(name: string) {
    Sep !in name
  }

  /** `$dir . DIRECTORY_SEPARATOR . $name` */
  function Join(dir: string, name: string): string {
    dir + [Sep] + name
  }

  /** `p` names an entry directly inside `dir`. */
  predicate IsChildOf(p: string, dir: string) {
    |p| > |dir| && p[..|dir|] == dir && p[|dir|] == Sep && NoSep(p[|dir| + 1..])
  }

  lemma JoinIsChild(dir: string, name: string)
    ensures NoSep(name) ==> IsChildOf(Join(dir, name), dir)
  {
    var p := Join(dir, name);
    assert p[..|dir|] == dir;
    assert p[|dir| + 1..] == name;
  }

  /** A path has at most one parent directory. */
  lemma ChildHasOneParent(p: string, a: string, b: string)
    requires IsChildOf(p, a) && IsChildOf(p, b)
    ensures a == b
  {
  }

  lemma JoinInjective(dir: string, a: string, b: string)
    requires Join(dir, a) == Join(dir, b)
    ensures a == b
  {
    assert a == Join(dir, a)[|dir| + 1..];
    assert b == Join(dir, b)[|dir| + 1..];
  }

  /** Entries of two different directories never share a path. */
  lemma SeparateDirsSeparateEntries(a: string, b: string, n: string, m: string)
    requires a != b && NoSep(n) && NoSep(m)
    ensures Join(a, n) != Join(b, m)
  {
    if Join(a, n) == Join(b, m) {
      JoinIsChild(a, n);
      JoinIsChild(b, m);
      ChildHasOneParent(Join(a, n), a, b);
    }
  }

  /** PHP's `rtrim($s, $chars)`: drop every trailing character that is in `cut`. */
  function RTrim(s: string, cut: set<char>): (r: string)
    ensures r <= s
    ensures forall i :: |r| <= i < |s| ==> s[i] in cut
    ensures r == [] || r[|r| - 1] !in cut
    decreases |s|
  {
    if |s| > 0 && s[|s| - 1] in cut then RTrim(s[..|s| - 1], cut) else s
  }

  /** The three properties above pin the trimmed string down completely. */
  lemma RTrimUnique(s: string, cut: set<char>, t: string)
    requires t <= s
    requires forall i :: |t| <= i < |s| ==> s[i] in cut
    requires t == [] || t[|t| - 1] !in cut
    ensures t == RTrim(s, cut)
  {
    var r := RTrim(s, cut);
    assert t == s[..|t|] && r == s[..|r|];
  }

  /** Position of the last `c` in `s`, or -1 when `s` holds none. */
  function LastIndex(s: string, c: char): (k: int)
    ensures -1 <= k < |s|
    decreases |s|
  {
    if |s| == 0 then -1
    else if s[|s| - 1] == c then |s| - 1
    else LastIndex(s[..|s| - 1], c)
  }

  /** `LastIndex` finds an occurrence of `c`, and none follows it. */
  lemma {:induction false} LastIndexIsLast(s: string, c: char)
    ensures var k := LastIndex(s, c);
      && (k >= 0 ==> s[k] == c)
      && (forall j :: k < j < |s| ==> s[j] != c)
    decreases |s|
  {
    if |s| > 0 && s[|s| - 1] != c {
      LastIndexIsLast(s[..|s| - 1], c);
      assert forall j :: 0 <= j < |s| - 1 ==> s[..|s| - 1][j] == s[j];
    }
  }

  /** `pathinfo($name, PATHINFO_EXTENSION)`: the text after the last dot, or "" without a dot. */
  function Extension(name: string): string {
    var k := LastIndex(name, '.');
    if k < 0 then "" else name[k + 1..]
  }

  /** `pathinfo($name, PATHINFO_FILENAME)`: the name up to the last dot. */
  function Stem(name: string): string {
    var k := LastIndex(name, '.');
    if k < 0 then name else name[..k]
  }

  /** Stem and extension split a name at its last dot and lose nothing. */
  lemma StemExtensionSplit(name: string)
    ensures '.' in name ==> name == Stem(name) + "." + Extension(name) && '.' !in Extension(name)
    ensures '.' !in name ==> Stem(name) == name && Extension(name) == ""
  {
    var k := LastIndex(name, '.');
    LastIndexIsLast(name, '.');
    if k >= 0 {
      assert name == name[..k] + "." + name[k + 1..];
    }
  }

  /** PHP's `strtolower` on one character (ASCII letters only). */
  function LowerChar(c: char): char {
    if 'A' <= c <= 'Z' then (c as int + 32) as char else c
  }

  function Lower(s: string): string {
    seq(|s|, i requires 0 <= i < |s| => LowerChar(s[i]))
  }

  /** The processor's classification: `strtolower(pathinfo($path, PATHINFO_EXTENSION)) === 'pdf'`. */
  predicate IsPdfName(name: string) {
    Lower(Extension(name)) == "pdf"
  }

  /** The PDF test ignores letter case and nothing else. */
  lemma PdfTestIsCaseInsensitive(name: string)
    ensures IsPdfName(name) <==>
      var e := Extension(name);
      |e| == 3 && e[0] in {'p', 'P'} && e[1] in {'d', 'D'} && e[2] in {'f', 'F'}
  {
    var e := Extension(name);
    if |e| == 3 {
      assert Lower(e) == [LowerChar(e[0]), LowerChar(e[1]), LowerChar(e[2])];
    }
  }

  /** A name without a dot has the empty extension and is never a PDF. */
  lemma NoDotIsNotPdf(name: string)
    requires '.' !in name
    ensures !IsPdfName(name)
  {
    StemExtensionSplit(name);
    assert Lower("") == "";
  }

  function Digit(d: nat): char
    requires d < 10
  {
    ('0' as int + d) as char
  }

  /** PHP's decimal rendering of a non-negative integer. */
  function NatToString(n: nat): (s: string)
    ensures |s| > 0
    ensures forall i :: 0 <= i < |s| ==> '0' <= s[i] <= '9'
    decreases n
  {
    if n < 10 then [Digit(n)] else NatToString(n / 10) + [Digit(n % 10)]
  }

  /** The value of a string of decimal digits. */
  function DigitsValue(s: string): nat
    requires forall i :: 0 <= i < |s| ==> '0' <= s[i] <= '9'
    decreases |s|
  {
    if |s| == 0 then 0
    else DigitsValue(s[..|s| - 1]) * 10 + (s[|s| - 1] as int - '0' as int)
  }

  lemma {:induction false} DigitsRoundTrip(n: nat)
    ensures DigitsValue(NatToString(n)) == n
    decreases n
  {
    if n >= 10 {
      DigitsRoundTrip(n / 10);
      var s := NatToString(n);
      assert s[..|s| - 1] == NatToString(n / 10);
    }
  }

  lemma NatToStringInjective(a: nat, b: nat)
    requires NatToString(a) == NatToString(b)
    ensures a == b
  {
    DigitsRoundTrip(a);
    DigitsRoundTrip(b);
  }

  /** The collision-avoiding name `<stem>_<k>.pdf`. */
  function Suffixed(stem: string, k: nat): string {
    stem + "_" + NatToString(k) + ".pdf"
  }

  lemma SuffixedInjective(stem: string, j: nat, k: nat)
    requires Suffixed(stem, j) == Suffixed(stem, k)
    ensures j == k
  {
    var a := Suffixed(stem, j);
    var b := Suffixed(stem, k);
    assert NatToString(j) == a[|stem| + 1..|a| - 4];
    assert NatToString(k) == b[|stem| + 1..|b| - 4];
    NatToStringInjective(j, k);
  }

  /** A suffixed name ends in lower-case ".pdf", is still classified as a PDF,
      and stays a plain name when its stem is one. */
  lemma SuffixedIsPdf(stem: string, k: nat)
    ensures var t := Suffixed(stem, k); t[|t| - 4..] == ".pdf" && IsPdfName(t)
    ensures NoSep(stem) ==> NoSep(Suffixed(stem, k))
  {
    var t := Suffixed(stem, k);
    var d := NatToString(k);
    assert t[|t| - 4..] == ".pdf";
    var i := LastIndex(t, '.');
    LastIndexIsLast(t, '.');
    assert t[|t| - 4] == '.';
    assert i == |t| - 4;
    assert Extension(t) == "pdf";
    assert Lower("pdf") == "pdf";
    if NoSep(stem) {
      assert forall j :: 0 <= j < |t| ==> t[j] != Sep by {
        forall j | 0 <= j < |t|
          ensures t[j] != Sep
        {
          if j < |stem| {
            assert t[j] == stem[j];
          } else if j == |stem| {
          } else if j < |stem| + 1 + |d| {
            assert t[j] == d[j - |stem| - 1];
          } else {
            assert t[j] == ".pdf"[j - |stem| - 1 - |d|];
          }
        }
      }
    }
  }

  /** A stem cut from a plain name is itself plain. */
  lemma StemNoSep(name: string)
    ensures NoSep(name) ==> NoSep(Stem(name))
  {
    var k := LastIndex(name, '.');
    if k >= 0 && NoSep(name) {
      assert forall j :: 0 <= j < k ==> name[..k][j] == name[j];
    }
  }
}
