/**
 * The pure string logic of the wsdl batch driver: the literal ".wsdl" suffix
 * filter used to list the input directory, the replace-all mapping from a wsdl
 * file name to its ".apextest.jar" artifact name, the case-insensitive keyword
 * comparison used on the command line, and the joining of a directory and a
 * file name into a path.
 */
module WsdlNames {

  datatype Option<T> = None | Some(value: T)

  /** The suffix that marks a wsdl file. */
  const WsdlSuffix: string := ".wsdl"
  /** The suffix of every generated jar. */
  const UniqueJarSuffix: string := ".apextest.jar"

  // ---------------------------------------------------------------------------
  // Suffix test and the directory filter
  // ---------------------------------------------------------------------------

  /** Java's String.endsWith: a literal, case-sensitive suffix test. */
  predicate EndsWith(s: string, suffix: string)
  {
    |suffix| <= |s| && s[|s| - |suffix|..] == suffix
  }

  /** A string ends with a suffix exactly when it is some string followed by that suffix. */
  lemma EndsWithIsConcatenation(s: string, suffix: string)
    ensures EndsWith(s, suffix) <==> exists p :: p + suffix == s
  {
    if EndsWith(s, suffix) {
      assert s[..|s| - |suffix|] + suffix == s;
    }
    if exists p :: p + suffix == s {
      var p :| p + suffix == s;
      assert s[|s| - |suffix|..] == suffix;
    }
  }

  /** A suffix of the second part of a concatenation is a suffix of the whole. */
  lemma EndsWithAppend(a: string, b: string, suffix: string)
    requires EndsWith(b, suffix)
    ensures EndsWith(a + b, suffix)
  {
    assert (a + b)[|a + b| - |suffix|..] == b[|b| - |suffix|..];
  }

  /**
   * The anonymous FilenameFilter: a missing (null) name is refused, any other
   * name is accepted when it ends with ".wsdl". The directory argument of the
   * filter is unused and is not modelled.
   */
  predicate Accept(name: Option<string>)
  {
    name.Some? && EndsWith(name.value, WsdlSuffix)
  }

  /** The filter is exactly a literal suffix test, and refuses null. */
  lemma AcceptIsSuffixTest(name: Option<string>)
    ensures Accept(name) <==> name.Some? && exists p :: p + WsdlSuffix == name.value
  {
    if name.Some? {
      EndsWithIsConcatenation(name.value, WsdlSuffix);
    }
  }

  /** The match is case-sensitive and anchored at the end of the name. */
  lemma AcceptExamples()
    ensures Accept(Some("A.wsdl")) && Accept(Some(".wsdl")) && Accept(Some("a.wsdl.wsdl"))
    ensures !Accept(Some("A.WSDL")) && !Accept(Some("a.wsdl.bak")) && !Accept(Some("notes.txt"))
    ensures !Accept(Some("wsdl")) && !Accept(None)
  {
    assert "A.WSDL"[1..] != WsdlSuffix by { assert "A.WSDL"[1..][1] != WsdlSuffix[1]; }
    assert "a.wsdl.bak"[5..] != WsdlSuffix by { assert "a.wsdl.bak"[5..][0] != WsdlSuffix[0]; }
    assert "notes.txt"[4..] != WsdlSuffix by { assert "notes.txt"[4..][1] != WsdlSuffix[1]; }
  }

  /**
   * A directory listing through the filter, as File.list(FilenameFilter)
   * computes it on a platform whose listing honours the filter: the accepted
   * entries, in listing order, each as often as it is listed.
   */
  function FilterNames(entries: seq<string>): (r: seq<string>)
    ensures |r| <= |entries|
    ensures forall k :: 0 <= k < |r| ==> Accept(Some(r[k]))
    ensures forall x :: multiset(r)[x] == if Accept(Some(x)) then multiset(entries)[x] else 0
  {
    if entries == [] then []
    else
      assert entries == [entries[0]] + entries[1..];
      if Accept(Some(entries[0])) then [entries[0]] + FilterNames(entries[1..])
      else FilterNames(entries[1..])
  }

  // ---------------------------------------------------------------------------
  // Replace-all (Java's String.replace(CharSequence, CharSequence))
  // ---------------------------------------------------------------------------

  /** The target occurs in s starting at index i. */
  predicate OccursAt(s: string, target: string, i: int)
  {
    0 <= i && i + |target| <= |s| && s[i..i + |target|] == target
  }

  /**
   * Every occurrence of target is replaced, scanning left to right; after a
   * match the scan resumes behind it, so occurrences never overlap.
   */
  function ReplaceAll(s: string, target: string, replacement: string): string
    requires |target| > 0
    decreases |s|
  {
    if |s| < |target| then s
    else if s[..|target|] == target then replacement + ReplaceAll(s[|target|..], target, replacement)
    else [s[0]] + ReplaceAll(s[1..], target, replacement)
  }

  /** An occurrence in the tail of s is an occurrence in s, one position later. */
  lemma OccursInTail(s: string, target: string, i: int)
    requires |s| > 0 && OccursAt(s[1..], target, i)
    ensures OccursAt(s, target, i + 1)
  {
    assert s[1..][i..i + |target|] == s[i + 1..i + 1 + |target|];
  }

  /** Without an occurrence, replace-all returns its input unchanged. */
  lemma {:induction false} ReplaceAllWithoutOccurrence(s: string, target: string, replacement: string)
    requires |target| > 0
    requires forall i :: !OccursAt(s, target, i)
    ensures ReplaceAll(s, target, replacement) == s
  {
    if |s| >= |target| {
      assert !OccursAt(s, target, 0);
      forall i ensures !OccursAt(s[1..], target, i) {
        if OccursAt(s[1..], target, i) {
          OccursInTail(s, target, i);
        }
      }
      ReplaceAllWithoutOccurrence(s[1..], target, replacement);
      assert s == [s[0]] + s[1..];
    }
  }

  /** No proper prefix of t is also a suffix of t. */
  ghost predicate NoSelfOverlap(t: string)
  {
    forall k :: 0 < k < |t| ==> t[k..] != t[..|t| - k]
  }

  /**
   * A string longer than the target that starts and ends with it, but is shorter
   * than two copies, makes a proper prefix of the target equal to a suffix.
   */
  lemma SecondOccurrenceOverlaps(s: string, target: string)
    requires |target| < |s| && s[..|target|] == target && EndsWith(s, target)
    ensures |s| < 2 * |target| ==>
              target[|s| - |target|..] == target[..2 * |target| - |s|]
  {
    var n, k := |target|, |s| - |target|;
    if k < n {
      assert target[k..] == s[k..n];
      assert target[..n - k] == s[k..n];
    }
  }

  /**
   * When the target cannot overlap itself, the trailing occurrence of a string
   * that ends with the target is always replaced: the result ends with the
   * replacement.
   */
  lemma {:induction false} ReplaceAllKeepsSuffix(s: string, target: string, replacement: string)
    requires |target| > 0 && NoSelfOverlap(target)
    requires EndsWith(s, target)
    ensures EndsWith(ReplaceAll(s, target, replacement), replacement)
  {
    var n := |target|;
    if s[..n] == target {
      var rest := s[n..];
      if |s| == n {
        assert rest == [];
        assert ReplaceAll(s, target, replacement) == replacement;
        assert replacement[0..] == replacement;
      } else {
        SecondOccurrenceOverlaps(s, target);
        assert |s| >= 2 * n;
        assert rest[|rest| - n..] == s[|s| - n..];
        ReplaceAllKeepsSuffix(rest, target, replacement);
        EndsWithAppend(replacement, ReplaceAll(rest, target, replacement), replacement);
      }
    } else {
      assert |s| > n;
      assert s[1..][|s| - 1 - n..] == s[|s| - n..];
      ReplaceAllKeepsSuffix(s[1..], target, replacement);
      EndsWithAppend([s[0]], ReplaceAll(s[1..], target, replacement), replacement);
    }
  }

  /**
   * A target and a replacement are separated when the replacement is at least
   * as long as the target, never contains it, and neither can end where the
   * other begins: an occurrence of the target can then never be made up of
   * replaced text.
   */
  ghost predicate Separated(target: string, replacement: string)
  {
    && |replacement| >= |target|
    && (forall i :: !OccursAt(replacement, target, i))
    && (forall k :: 0 < k < |target| ==> replacement[|replacement| - k..] != target[..k])
    && (forall k :: 0 < k < |target| ==> target[|target| - k..] != replacement[..k])
  }

  /**
   * The first k characters of a replace-all result are some m characters of
   * the input followed by the first k - m characters of the replacement.
   */
  lemma {:induction false} ReplacedPrefix(s: string, target: string, replacement: string, k: nat)
    returns (m: nat)
    requires |target| > 0 && k <= |s| && k <= |replacement|
    ensures m <= k && k <= |ReplaceAll(s, target, replacement)|
    ensures ReplaceAll(s, target, replacement)[..k] == s[..m] + replacement[..k - m]
  {
    var n := |target|;
    if |s| < n {
      m := k;
    } else if s[..n] == target {
      m := 0;
    } else if k == 0 {
      m := 0;
    } else {
      var m' := ReplacedPrefix(s[1..], target, replacement, k - 1);
      m := m' + 1;
      var r' := ReplaceAll(s[1..], target, replacement);
      assert ReplaceAll(s, target, replacement)[..k] == [s[0]] + r'[..k - 1];
      assert s[..m] == [s[0]] + s[1..][..m'];
    }
  }

  /** Text behind a replacement that holds no target leaves none in the whole. */
  lemma NoOccurrenceAfterReplacement(target: string, replacement: string, rest: string, i: int)
    requires |target| > 0 && Separated(target, replacement)
    requires forall j :: !OccursAt(rest, target, j)
    ensures !OccursAt(replacement + rest, target, i)
  {
    var r, n, lr := replacement + rest, |target|, |replacement|;
    if 0 <= i && i + n <= |r| {
      if i + n <= lr {
        assert r[i..i + n] == replacement[i..i + n];
        assert !OccursAt(replacement, target, i);
      } else if i < lr {
        var k := lr - i;
        assert r[i..i + n][..k] == replacement[lr - k..];
        assert replacement[lr - k..] != target[..k];
      } else {
        assert r[i..i + n] == rest[i - lr..i - lr + n];
        assert !OccursAt(rest, target, i - lr);
      }
    }
  }

  /**
   * A copied first character that does not start a target, followed by a
   * replace-all result that holds no target, leaves none in the whole.
   */
  lemma NoOccurrenceAfterCopy(s: string, target: string, replacement: string, i: int)
    requires |target| > 0 && Separated(target, replacement)
    requires |s| >= |target| && s[..|target|] != target
    requires forall j :: !OccursAt(ReplaceAll(s[1..], target, replacement), target, j)
    ensures !OccursAt([s[0]] + ReplaceAll(s[1..], target, replacement), target, i)
  {
    var rest := ReplaceAll(s[1..], target, replacement);
    var r, n := [s[0]] + rest, |target|;
    if i == 0 && n <= |r| {
      var m := ReplacedPrefix(s[1..], target, replacement, n - 1);
      assert r[..n] == [s[0]] + rest[..n - 1];
      if m == n - 1 {
        assert s[..n] == [s[0]] + s[1..][..n - 1];
        assert r[..n] == s[..n];
      } else {
        var j := n - 1 - m;
        assert r[..n][n - j..] == replacement[..j];
        assert target[n - j..] != replacement[..j];
      }
    } else if 1 <= i && i + n <= |r| {
      assert r[i..i + n] == rest[i - 1..i - 1 + n];
      assert !OccursAt(rest, target, i - 1);
    }
  }

  /**
   * With a separated target and replacement, replace-all leaves no occurrence
   * of the target anywhere in its result.
   */
  lemma {:induction false} ReplaceAllLeavesNoOccurrence(s: string, target: string, replacement: string)
    requires |target| > 0 && Separated(target, replacement)
    ensures forall i :: !OccursAt(ReplaceAll(s, target, replacement), target, i)
  {
    var n := |target|;
    if |s| < n {
    } else if s[..n] == target {
      ReplaceAllLeavesNoOccurrence(s[n..], target, replacement);
      forall i ensures !OccursAt(ReplaceAll(s, target, replacement), target, i) {
        NoOccurrenceAfterReplacement(target, replacement, ReplaceAll(s[n..], target, replacement), i);
      }
    } else {
      ReplaceAllLeavesNoOccurrence(s[1..], target, replacement);
      forall i ensures !OccursAt(ReplaceAll(s, target, replacement), target, i) {
        NoOccurrenceAfterCopy(s, target, replacement, i);
      }
    }
  }

  /** The source's constants meet the conditions of the two lemmas above. */
  lemma SuffixesAreSeparated()
    ensures NoSelfOverlap(WsdlSuffix)
    ensures Separated(WsdlSuffix, UniqueJarSuffix)
  {
    var t, r := WsdlSuffix, UniqueJarSuffix;
    forall k | 0 < k < |t| ensures t[k..] != t[..|t| - k] {
      assert t[k..][0] == t[k] != '.';
      assert t[..|t| - k][0] == '.';
    }
    forall i ensures !OccursAt(r, t, i) {
      if 0 <= i && i + |t| <= |r| {
        assert r[i..i + |t|][0] == r[i];
        assert r[i..i + |t|][1] == r[i + 1];
        assert r[i] != '.' || r[i + 1] != 'w';
      }
    }
    forall k | 0 < k < |t| ensures r[|r| - k..] != t[..k] {
      assert r[|r| - k..][0] == r[|r| - k];
      if k == 4 {
        assert r[|r| - k..][1] == 'j';
        assert t[..k][1] == 'w';
      } else {
        assert r[|r| - k] != '.';
      }
    }
    forall k | 0 < k < |t| ensures t[|t| - k..] != r[..k] {
      assert t[|t| - k..][0] == t[|t| - k] != '.';
      assert r[..k][0] == '.';
    }
  }

  /** No string ends with both suffixes: they end in different characters. */
  lemma SuffixesExclusive(jar: string, wsdl: string)
    requires EndsWith(jar, UniqueJarSuffix) && EndsWith(wsdl, WsdlSuffix)
    ensures jar != wsdl
  {
    assert jar[|jar| - 1] == jar[|jar| - |UniqueJarSuffix|..][12] == 'r';
    assert wsdl[|wsdl| - 1] == wsdl[|wsdl| - |WsdlSuffix|..][4] == 'l';
  }

  /** The artifact name of a wsdl file name: every ".wsdl" becomes ".apextest.jar". */
  function JarName(name: string): string
  {
    ReplaceAll(name, WsdlSuffix, UniqueJarSuffix)
  }

  /**
   * For a name the filter accepts, the mapping really replaces: the artifact
   * name ends with ".apextest.jar", differs from the wsdl name, and contains no
   * ".wsdl" at all.
   */
  lemma JarNameOfWsdl(name: string)
    requires EndsWith(name, WsdlSuffix)
    ensures EndsWith(JarName(name), UniqueJarSuffix)
    ensures JarName(name) != name
    ensures forall i :: !OccursAt(JarName(name), WsdlSuffix, i)
  {
    SuffixesAreSeparated();
    ReplaceAllKeepsSuffix(name, WsdlSuffix, UniqueJarSuffix);
    ReplaceAllLeavesNoOccurrence(name, WsdlSuffix, UniqueJarSuffix);
    SuffixesExclusive(JarName(name), name);
  }

  /** A name without ".wsdl" keeps its name. */
  lemma JarNameWithoutWsdl(name: string)
    requires forall i :: !OccursAt(name, WsdlSuffix, i)
    ensures JarName(name) == name
  {
    ReplaceAllWithoutOccurrence(name, WsdlSuffix, UniqueJarSuffix);
  }

  /** The example of a single trailing suffix. */
  lemma JarNameExample()
    ensures JarName("A.wsdl") == "A.apextest.jar"
  {
    var t, r := WsdlSuffix, UniqueJarSuffix;
    assert "A.wsdl"[..5] != t by { assert "A.wsdl"[..5][0] != t[0]; }
    assert "A.wsdl"[1..] == t;
    assert t[..5] == t && t[5..] == [];
    assert ReplaceAll([], t, r) == [];
    assert ReplaceAll(t, t, r) == r;
  }

  /**
   * The mapping replaces every occurrence, not only the trailing one, and so
   * two distinct wsdl names can share one artifact name.
   */
  lemma JarNameCollision()
    ensures "a.wsdl.wsdl" != "a.apextest.jar.wsdl"
    ensures JarName("a.wsdl.wsdl") == JarName("a.apextest.jar.wsdl")
  {
    var x, y := "a.wsdl.wsdl", "a.apextest.jar.wsdl";
    var t, r := WsdlSuffix, UniqueJarSuffix;
    assert x[2] != y[2];
    DoubledSuffixIsReplaced();
    assert y == ("a" + r) + t;
    AppendedSuffixIsReplaced("a" + r);
  }

  /** Both occurrences in "a.wsdl.wsdl" are replaced. */
  lemma DoubledSuffixIsReplaced()
    ensures JarName("a.wsdl.wsdl") == "a" + UniqueJarSuffix + UniqueJarSuffix
  {
    var t, r := WsdlSuffix, UniqueJarSuffix;
    var s := "a" + t + t;
    assert s == "a.wsdl.wsdl";
    assert s[..5] != t by { assert s[..5][0] != t[0]; }
    assert s[1..] == t + t;
    assert (t + t)[..5] == t && (t + t)[5..] == t;
    assert t[..5] == t && t[5..] == [];
    assert ReplaceAll([], t, r) == [];
    assert ReplaceAll(t, t, r) == r;
    assert ReplaceAll(t + t, t, r) == r + r;
    assert ReplaceAll(s, t, r) == "a" + (r + r);
  }

  /**
   * In "a.apextest.jar.wsdl" nothing before the trailing ".wsdl" starts an
   * occurrence, so only that one is replaced.
   */
  lemma AppendedSuffixIsReplaced(p: string)
    requires p == "a" + UniqueJarSuffix
    ensures ReplaceAll(p + WsdlSuffix, WsdlSuffix, UniqueJarSuffix) == p + UniqueJarSuffix
  {
    var t, r := WsdlSuffix, UniqueJarSuffix;
    var s := p + t;
    SuffixesAreSeparated();
    forall i | 0 <= i < |p| ensures !OccursAt(s, t, i) {
      if i == 0 {
        assert s[0..5][0] != t[0];
      } else if i + 5 <= |p| {
        assert s[i..i + 5] == r[i - 1..i + 4];
        assert !OccursAt(r, t, i - 1);
      } else {
        var k := |p| - i;
        assert s[i..i + 5][..k] == p[i..] == r[i - 1..] == r[|r| - k..];
        assert r[|r| - k..] != t[..k];
      }
    }
    ReplacedAfterCopies(p, t, r);
  }

  /** Replace-all copies p and replaces the trailing target when no occurrence starts inside p. */
  lemma {:induction false} ReplacedAfterCopies(p: string, target: string, replacement: string)
    requires |target| > 0
    requires forall i :: 0 <= i < |p| ==> !OccursAt(p + target, target, i)
    ensures ReplaceAll(p + target, target, replacement) == p + replacement
  {
    var s := p + target;
    if p == [] {
      assert s == target && s[..|target|] == target && s[|target|..] == [];
      assert ReplaceAll([], target, replacement) == [];
    } else {
      var q := p[1..];
      assert !OccursAt(s, target, 0);
      assert s[1..] == q + target;
      forall i | 0 <= i < |q| ensures !OccursAt(q + target, target, i) {
        assert !OccursAt(s, target, i + 1);
        assert (q + target)[i..i + |target|] == s[i + 1..i + 1 + |target|];
      }
      ReplacedAfterCopies(q, target, replacement);
      assert ReplaceAll(s, target, replacement) == [s[0]] + ReplaceAll(q + target, target, replacement);
      assert p == [p[0]] + q;
    }
  }

  // ---------------------------------------------------------------------------
  // Case-insensitive comparison (Java's String.equalsIgnoreCase)
  // ---------------------------------------------------------------------------

  /**
   * Character.toUpperCase, restricted to the characters whose upper case is an
   * ASCII letter: the ASCII lower-case letters, dotless i and long s.
   */
  function UpperCase(c: char): char
  {
    if 'a' <= c <= 'z' then (c as int - 32) as char
    else if c == '\U{0131}' then 'I'
    else if c == '\U{017F}' then 'S'
    else c
  }

  /**
   * Character.toLowerCase, restricted to the characters whose lower case is an
   * ASCII letter: the ASCII upper-case letters, capital I with dot and the
   * Kelvin sign.
   */
  function LowerCase(c: char): char
  {
    if 'A' <= c <= 'Z' then (c as int + 32) as char
    else if c == '\U{0130}' then 'i'
    else if c == '\U{212A}' then 'k'
    else c
  }

  /** String.regionMatches(ignoreCase = true) on one pair of characters. */
  predicate CharsEqualIgnoreCase(a: char, b: char)
  {
    a == b || UpperCase(a) == UpperCase(b) || LowerCase(UpperCase(a)) == LowerCase(UpperCase(b))
  }

  /** String.equalsIgnoreCase: equal lengths, and every position matches ignoring case. */
  predicate EqualsIgnoreCase(a: string, b: string)
  {
    |a| == |b| && forall i :: 0 <= i < |a| ==> CharsEqualIgnoreCase(a[i], b[i])
  }

  /** The spellings the case-insensitive test accepts for an ASCII lower-case letter. */
  function Spellings(c: char): (r: set<char>)
    requires 'a' <= c <= 'z'
  {
    {c, (c as int - 32) as char}
    + (if c == 'i' then {'\U{0130}', '\U{0131}'} else {})
    + (if c == 's' then {'\U{017F}'} else {})
    + (if c == 'k' then {'\U{212A}'} else {})
  }

  /** A keyword of ASCII lower-case letters. */
  predicate LowerAsciiWord(w: string)
  {
    forall i :: 0 <= i < |w| ==> 'a' <= w[i] <= 'z'
  }

  /**
   * Against a lower-case ASCII keyword, the case-insensitive test accepts
   * exactly the strings of the same length whose every character is one of the
   * spellings of the keyword's character at that position.
   */
  lemma EqualsIgnoreCaseOfKeyword(keyword: string, s: string)
    requires LowerAsciiWord(keyword)
    ensures EqualsIgnoreCase(keyword, s) <==>
              |s| == |keyword| && forall i :: 0 <= i < |s| ==> s[i] in Spellings(keyword[i])
  {
    forall i | 0 <= i < |keyword| && i < |s|
      ensures CharsEqualIgnoreCase(keyword[i], s[i]) <==> s[i] in Spellings(keyword[i])
    {
    }
  }

  /** The two keywords of the command line are lower-case ASCII words. */
  lemma KeywordExamples()
    ensures EqualsIgnoreCase("wsdldir", "WSDLDIR") && EqualsIgnoreCase("wsdldir", "WsdlDir")
    ensures EqualsIgnoreCase("jardir", "jarDir") && EqualsIgnoreCase("jardir", "JARDIR")
    ensures !EqualsIgnoreCase("wsdldir", "wsdl-dir") && !EqualsIgnoreCase("jardir", "jar")
    ensures !EqualsIgnoreCase("wsdldir", "wsdldi") && !EqualsIgnoreCase("jardir", "wsdldi")
  {
    assert !CharsEqualIgnoreCase("wsdldir"[4], "wsdl-dir"[4]);
    assert !CharsEqualIgnoreCase("jardir"[0], "wsdldi"[0]);
  }

  // ---------------------------------------------------------------------------
  // Paths
  // ---------------------------------------------------------------------------

  /** new File(dir, name) as a path string: the directory, a separator, the name. */
  function Join(dir: string, name: string): string
  {
    dir + "/" + name
  }

  /**
   * Paths built from names without a separator determine their directory and
   * their name.
   */
  lemma JoinInjective(a: string, x: string, b: string, y: string)
    requires '/' !in x && '/' !in y
    requires Join(a, x) == Join(b, y)
    ensures a == b && x == y
  {
    var p := Join(a, x);
    assert p[|a|] == '/' && p[|b|] == '/';
    assert forall i :: |a| < i < |p| ==> p[i] == x[i - |a| - 1] != '/';
    assert forall i :: |b| < i < |p| ==> p[i] == y[i - |b| - 1] != '/';
    assert |a| == |b|;
    assert x == p[|a| + 1..] == y;
    assert a == p[..|a|] == b;
  }

  /** A path ends with the suffix its file name ends with. */
  lemma JoinEndsWith(dir: string, name: string, suffix: string)
    requires EndsWith(name, suffix)
    ensures EndsWith(Join(dir, name), suffix)
  {
    EndsWithAppend(dir + "/", name, suffix);
  }
}
