/**
 * Go's `path.Base`, `filepath.Ext` and, for patterns made of literal
 * characters and `*` only, `filepath.Match`, on slash-separated paths.
 */
module GoPaths {
  import opened GoStrings

  /** The part of `p` after its last slash (all of `p` when it has none). */
  function LastElement(p: string): (r: string)
    ensures '/' !in r
    ensures |r| <= |p| && r == p[|p| - |r|..]
    ensures |r| < |p| ==> p[|p| - |r| - 1] == '/'
    decreases |p|
  {
    if p == [] || p[|p| - 1] == '/' then []
    else
      var q := p[..|p| - 1];
      assert p == q + [p[|p| - 1]];
      LastElement(q) + [p[|p| - 1]]
  }

  /**
   * path.Base: "." for the empty path, "/" for a path of slashes only,
   * otherwise the last element after trailing slashes are removed.
   */
  function Base(p: string): (r: string)
    ensures r != ""
    ensures r == "/" || '/' !in r
  {
    if p == "" then "."
    else
      var q := LastElement(TrimRight(p, Chars("/")));
      if q == "" then "/" else q
  }

  /** The base of `dir/name` is `name` for a non-empty, slash-free `name`. */
  lemma {:induction false} BaseOfChild(dir: string, name: string)
    requires name != "" && '/' !in name
    ensures Base(dir + "/" + name) == name
  {
    var p := dir + "/" + name;
    assert TrimRight(p, Chars("/")) == p;
    LastElementOfChild(dir, name);
  }

  /** Helper: LastElement strips everything up to the slash before a slash-free tail. */
  lemma {:induction false} LastElementOfChild(dir: string, name: string)
    requires '/' !in name
    ensures LastElement(dir + "/" + name) == name
    decreases |name|
  {
    var p := dir + "/" + name;
    if name == [] {
      assert p[|p| - 1] == '/';
    } else {
      var init := name[..|name| - 1];
      assert p[..|p| - 1] == dir + "/" + init;
      assert '/' !in init by {
        forall k | 0 <= k < |init| ensures init[k] != '/' { assert init[k] == name[k]; }
      }
      LastElementOfChild(dir, init);
      assert init + [name[|name| - 1]] == name;
    }
  }

  /** The extension scan of filepath.Ext over the first `n` characters of `p`. */
  function ExtBefore(p: string, n: nat): string
    requires n <= |p|
    decreases n
  {
    if n == 0 || p[n - 1] == '/' then ""
    else if p[n - 1] == '.' then p[n - 1..]
    else ExtBefore(p, n - 1)
  }

  /**
   * filepath.Ext: the suffix of `p` from the last dot of its last element,
   * dot included, or "" when that element has no dot.
   */
  function Ext(p: string): string
  {
    ExtBefore(p, |p|)
  }

  /** Ext is "" or a dot-led, slash-free suffix of its argument. */
  lemma {:induction false} ExtShape(p: string)
    ensures Ext(p) == "" || (Ext(p)[0] == '.' && '/' !in Ext(p) && |Ext(p)| <= |p| && Ext(p) == p[|p| - |Ext(p)|..])
  {
    ExtBeforeShape(p, |p|);
    var e := Ext(p);
    if e != "" {
      assert forall j :: 0 <= j < |e| ==> e[j] == p[|p| - |e| + j];
    }
  }

  /** Helper: the scan over the first n characters stops at the last '.' after the last '/'. */
  lemma {:induction false} ExtBeforeShape(p: string, n: nat)
    requires n <= |p|
    ensures var e := ExtBefore(p, n);
      e == "" || (|p| - n < |e| <= |p| && e == p[|p| - |e|..] && e[0] == '.' &&
        forall k :: |p| - |e| <= k < n ==> p[k] != '/')
    decreases n
  {
    if n > 0 && p[n - 1] != '/' && p[n - 1] != '.' {
      ExtBeforeShape(p, n - 1);
    }
  }

  /** A name `stem.e` whose `e` has no dot and no slash has extension ".e". */
  lemma {:induction false} ExtOfDotted(stem: string, e: string)
    requires '.' !in e && '/' !in e
    ensures Ext(stem + "." + e) == "." + e
  {
    var p := stem + "." + e;
    ExtBeforeTail(p, |stem|, |p|);
  }

  /** Helper: the scan passes over characters that are neither '.' nor '/'. */
  lemma {:induction false} ExtBeforeTail(p: string, d: nat, n: nat)
    requires d < n <= |p| && p[d] == '.'
    requires forall k :: d < k < n ==> p[k] != '.' && p[k] != '/'
    ensures ExtBefore(p, n) == p[d..]
    decreases n
  {
    if n - 1 > d {
      ExtBeforeTail(p, d, n - 1);
    }
  }

  /**
   * filepath.Match for a pattern of literal characters and `*`; `*` matches
   * any run of non-slash characters.
   */
  predicate GlobMatch(pattern: string, name: string)
    decreases |pattern| + |name|
  {
    if pattern == [] then name == []
    else if pattern[0] == '*' then
      GlobMatch(pattern[1..], name) || (name != [] && name[0] != '/' && GlobMatch(pattern, name[1..]))
    else name != [] && name[0] == pattern[0] && GlobMatch(pattern[1..], name[1..])
  }

  /** A pattern without `*` (and without the `?`, `[` and backslash that GlobMatch does not model) matches exactly itself. */
  lemma {:induction false} GlobLiteral(lit: string, name: string)
    requires '*' !in lit && '?' !in lit && '[' !in lit && '\\' !in lit
    ensures GlobMatch(lit, name) <==> name == lit
    decreases |lit|
  {
    if lit != [] && name != [] {
      GlobLiteral(lit[1..], name[1..]);
      if name[1..] == lit[1..] && name[0] == lit[0] {
        assert name == [name[0]] + name[1..];
        assert lit == [lit[0]] + lit[1..];
      }
    }
  }

  /**
   * `*` followed by a literal suffix (the `*.xml` and `*.bz2` patterns)
   * matches exactly the slash-free names ending in that suffix.
   */
  lemma {:induction false} GlobStarSuffix(suffix: string, name: string)
    requires '*' !in suffix && '?' !in suffix && '[' !in suffix && '\\' !in suffix && '/' !in suffix
    ensures GlobMatch("*" + suffix, name) <==> '/' !in name && |suffix| <= |name| && name[|name| - |suffix|..] == suffix
    decreases |name|
  {
    var pat := "*" + suffix;
    assert pat[1..] == suffix;
    GlobLiteral(suffix, name);
    if name != [] {
      GlobStarSuffix(suffix, name[1..]);
      if |suffix| <= |name| - 1 {
        assert name[1..][|name| - 1 - |suffix|..] == name[|name| - |suffix|..];
      }
      assert '/' !in name <==> name[0] != '/' && '/' !in name[1..] by {
        assert name == [name[0]] + name[1..];
      }
      if name == suffix {
        assert name[|name| - |suffix|..] == name;
      }
    }
  }
}
