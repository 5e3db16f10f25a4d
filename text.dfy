/**
 * The JavaScript string operations the handlers use: `trim`, `toLowerCase`,
 * `startsWith`, `endsWith` and `split` on a one-character separator.
 * Strings are sequences of characters; `toLowerCase` maps the ASCII letters
 * only (the other Unicode case mappings are not modelled).
 */
module Text {

  /** ECMAScript WhiteSpace and LineTerminator code points: what `trim` removes. */
  const Spaces: set<char> := {
    '\t', '\n', '\U{000B}', '\U{000C}', '\r', ' ', '\U{00A0}', '\U{1680}',
    '\U{2000}', '\U{2001}', '\U{2002}', '\U{2003}', '\U{2004}', '\U{2005}',
    '\U{2006}', '\U{2007}', '\U{2008}', '\U{2009}', '\U{200A}',
    '\U{2028}', '\U{2029}', '\U{202F}', '\U{205F}', '\U{3000}', '\U{FEFF}'
  }

  predicate IsSpace(c: char) {
    c in Spaces
  }

  predicate AllSpace(s: string) {
    forall k :: 0 <= k < |s| ==> IsSpace(s[k])
  }

  /** `s.trimStart()` */
  function TrimStart(s: string): string {
    if s != [] && IsSpace(s[0]) then TrimStart(s[1..]) else s
  }

  /** `s.trimEnd()` */
  function TrimEnd(s: string): string {
    if s != [] && IsSpace(s[|s| - 1]) then TrimEnd(s[..|s| - 1]) else s
  }

  /** `s.trim()` */
  function Trim(s: string): string {
    TrimEnd(TrimStart(s))
  }

  /** `trimStart` drops leading white space only, and all of it. */
  lemma {:induction false} TrimStartShape(s: string)
    ensures var r := TrimStart(s);
      && |r| <= |s| && r == s[|s| - |r|..]
      && AllSpace(s[..|s| - |r|])
      && (r == [] || !IsSpace(r[0]))
    decreases |s|
  {
    if s != [] && IsSpace(s[0]) {
      TrimStartShape(s[1..]);
      var r := TrimStart(s);
      assert s[1..][|s| - 1 - |r|..] == s[|s| - |r|..];
      var lead := s[..|s| - |r|];
      assert AllSpace(lead) by {
        forall k | 0 <= k < |lead| ensures IsSpace(lead[k]) {
          if k > 0 {
            assert lead[k] == s[1..][..|s| - 1 - |r|][k - 1];
          }
        }
      }
    }
  }

  /** `trimEnd` drops trailing white space only, and all of it. */
  lemma {:induction false} TrimEndShape(s: string)
    ensures var r := TrimEnd(s);
      && |r| <= |s| && r == s[..|r|]
      && AllSpace(s[|r|..])
      && (r == [] || !IsSpace(r[|r| - 1]))
    decreases |s|
  {
    if s != [] && IsSpace(s[|s| - 1]) {
      var n := |s| - 1;
      TrimEndShape(s[..n]);
      var r := TrimEnd(s);
      assert s[..n][..|r|] == s[..|r|];
      forall k | |r| <= k < |s| ensures IsSpace(s[k]) {
        if k < n {
          assert s[..n][|r|..][k - |r|] == s[k];
        }
      }
      assert AllSpace(s[|r|..]) by {
        forall k | 0 <= k < |s[|r|..]| ensures IsSpace(s[|r|..][k]) {
          assert s[|r|..][k] == s[|r| + k];
        }
      }
    }
  }

  /**
   * `trim` removes white space and nothing else: the input is white space,
   * then the trimmed string, then white space, and the trimmed string neither
   * starts nor ends with white space.
   */
  lemma TrimShape(s: string)
    ensures var r := Trim(s);
      && (r == [] || (!IsSpace(r[0]) && !IsSpace(r[|r| - 1])))
      && exists i :: 0 <= i <= |s| - |r| && s[i..i + |r|] == r && AllSpace(s[..i]) && AllSpace(s[i + |r|..])
  {
    var a := TrimStart(s);
    TrimStartShape(s);
    TrimEndShape(a);
    var r := TrimEnd(a);
    var i := |s| - |a|;
    assert s[i..i + |r|] == a[..|r|];
    assert s[i + |r|..] == a[|r|..];
    if r != [] {
      assert r[0] == a[0];
    }
  }

  lemma {:induction false} TrimStartSkips(lead: string, rest: string)
    requires AllSpace(lead)
    ensures TrimStart(lead + rest) == TrimStart(rest)
    decreases |lead|
  {
    if lead != [] {
      var s := lead + rest;
      assert s[0] == lead[0] && IsSpace(lead[0]);
      assert s[1..] == lead[1..] + rest;
      assert TrimStart(s) == TrimStart(s[1..]);
      assert AllSpace(lead[1..]) by {
        forall k | 0 <= k < |lead[1..]| ensures IsSpace(lead[1..][k]) {
          assert lead[1..][k] == lead[k + 1];
        }
      }
      TrimStartSkips(lead[1..], rest);
    } else {
      assert lead + rest == rest;
    }
  }

  lemma {:induction false} TrimEndSkips(rest: string, trail: string)
    requires AllSpace(trail)
    ensures TrimEnd(rest + trail) == TrimEnd(rest)
    decreases |trail|
  {
    if trail != [] {
      var n := |trail| - 1;
      var s := rest + trail;
      assert s[|s| - 1] == trail[n] && IsSpace(trail[n]);
      assert s[..|s| - 1] == rest + trail[..n];
      assert TrimEnd(s) == TrimEnd(s[..|s| - 1]);
      assert AllSpace(trail[..n]) by {
        forall k | 0 <= k < n ensures IsSpace(trail[..n][k]) {
          assert trail[..n][k] == trail[k];
        }
      }
      TrimEndSkips(rest, trail[..n]);
    } else {
      assert rest + trail == rest;
    }
  }

  /**
   * `trim` is characterised independently of how it is computed: whenever `s`
   * is white space, then a core that neither starts nor ends with white space,
   * then white space again, the trimmed string is that core.
   */
  lemma TrimUnique(lead: string, core: string, trail: string)
    requires AllSpace(lead) && AllSpace(trail)
    requires core == [] || (!IsSpace(core[0]) && !IsSpace(core[|core| - 1]))
    ensures Trim(lead + core + trail) == core
  {
    assert lead + core + trail == lead + (core + trail);
    TrimStartSkips(lead, core + trail);
    if core == [] {
      assert core + trail == trail + [];
      TrimStartSkips(trail, []);
      assert TrimStart([]) == [];
      assert TrimStart(lead + core + trail) == [];
      assert TrimEnd([]) == [];
    } else {
      assert (core + trail)[0] == core[0];
      assert TrimStart(core + trail) == core + trail;
      assert TrimEnd(core) == core;
      TrimEndSkips(core, trail);
    }
  }

  /** Trimming twice trims no more than trimming once. */
  lemma TrimIdempotent(s: string)
    ensures Trim(Trim(s)) == Trim(s)
  {
    TrimShape(s);
    var r := Trim(s);
    assert r == [] + r + [];
    TrimUnique([], r, []);
  }

  function LowerChar(c: char): char {
    if 'A' <= c <= 'Z' then (c as int + 32) as char else c
  }

  /** `s.toLowerCase()` on the ASCII letters. */
  function ToLower(s: string): (r: string)
    ensures |r| == |s|
    ensures forall k :: 0 <= k < |s| ==> r[k] == LowerChar(s[k])
  {
    seq(|s|, k requires 0 <= k < |s| => LowerChar(s[k]))
  }

  /** `s.startsWith(p)` */
  predicate StartsWith(s: string, p: string) {
    |p| <= |s| && s[..|p|] == p
  }

  /** `s.endsWith(p)` */
  predicate EndsWith(s: string, p: string) {
    |p| <= |s| && s[|s| - |p|..] == p
  }

  /** Rejoins the pieces of a split with the separator between them. */
  function Join(parts: seq<string>, sep: char): string
    requires |parts| >= 1
  {
    if |parts| == 1 then parts[0] else parts[0] + [sep] + Join(parts[1..], sep)
  }

  /**
   * `s.split(sep)` for a one-character separator: the pieces between the
   * separators, in order, empty pieces included; `"".split(sep)` is `[""]`.
   */
  function Split(s: string, sep: char): (parts: seq<string>)
    ensures |parts| >= 1
    ensures forall k :: 0 <= k < |parts| ==> sep !in parts[k]
    ensures sep in s <==> |parts| >= 2
  {
    if s == [] then [[]]
    else
      var rest := Split(s[1..], sep);
      if s[0] == sep then [[]] + rest
      else
        assert sep !in [s[0]] + rest[0];
        [[s[0]] + rest[0]] + rest[1..]
  }

  /** Joining the pieces of a split gives back the string. */
  lemma {:induction false} SplitJoin(s: string, sep: char)
    ensures Join(Split(s, sep), sep) == s
  {
    if s != [] {
      var rest := Split(s[1..], sep);
      SplitJoin(s[1..], sep);
      if s[0] == sep {
        assert Split(s, sep)[1..] == rest;
      } else {
        var parts := Split(s, sep);
        assert parts[1..] == rest[1..];
        if |rest| >= 2 {
          assert Join(rest, sep) == rest[0] + [sep] + Join(rest[1..], sep);
        }
      }
    }
  }

  /** A string without the separator is one piece. */
  lemma {:induction false} SplitNoSep(a: string, sep: char)
    requires sep !in a
    ensures Split(a, sep) == [a]
  {
    if a != [] {
      assert a[0] != sep && sep !in a[1..];
      SplitNoSep(a[1..], sep);
      assert Split(a, sep) == [[a[0]] + a[1..]];
      assert [a[0]] + a[1..] == a;
    }
  }

  /** The first piece ends at the first separator; the rest is split alone. */
  lemma {:induction false} SplitCons(a: string, sep: char, b: string)
    requires sep !in a
    ensures Split(a + [sep] + b, sep) == [a] + Split(b, sep)
  {
    var s := a + [sep] + b;
    if a == [] {
      assert s[1..] == b;
    } else {
      assert s[0] == a[0] && a[0] != sep;
      assert s[1..] == a[1..] + [sep] + b;
      assert sep !in a[1..];
      SplitCons(a[1..], sep, b);
      var rest := Split(s[1..], sep);
      assert rest == [a[1..]] + Split(b, sep);
      assert Split(s, sep) == [[a[0]] + rest[0]] + rest[1..];
      assert [a[0]] + a[1..] == a;
      assert rest[1..] == Split(b, sep);
    }
  }

  /**
   * `split` is characterised independently of how it is computed: the
   * separator-free pieces that join back to `s` are exactly `Split(s)`.
   */
  lemma {:induction false} SplitUnique(parts: seq<string>, sep: char)
    requires |parts| >= 1
    requires forall k :: 0 <= k < |parts| ==> sep !in parts[k]
    ensures Split(Join(parts, sep), sep) == parts
  {
    if |parts| == 1 {
      SplitNoSep(parts[0], sep);
    } else {
      SplitCons(parts[0], sep, Join(parts[1..], sep));
      SplitUnique(parts[1..], sep);
    }
  }
}
