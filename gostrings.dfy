/**
 * The parts of Go's `strings` package and of `unicode.IsSpace` that the
 * document readers use. Go strings are byte strings; here a string is a
 * sequence of Unicode characters, which agrees with Go on valid UTF-8 input.
 */
module GoStrings {

  /** strings.HasPrefix */
  predicate HasPrefix(s: string, prefix: string)
  {
    |prefix| <= |s| && s[..|prefix|] == prefix
  }

  /** strings.Contains, as a scan over the starting positions of `s`. */
  predicate Contains(s: string, sub: string)
    decreases |s|
  {
    HasPrefix(s, sub) || (s != [] && Contains(s[1..], sub))
  }

  /** `sub` occurs in `s` at position i. */
  predicate OccursAt(s: string, sub: string, i: int)
  {
    0 <= i && i + |sub| <= |s| && s[i..i + |sub|] == sub
  }

  /** Contains agrees with "some position holds an occurrence", in both directions. */
  lemma {:induction false} ContainsIff(s: string, sub: string)
    ensures Contains(s, sub) <==> exists i :: OccursAt(s, sub, i)
    decreases |s|
  {
    if HasPrefix(s, sub) {
      assert OccursAt(s, sub, 0);
    } else if s == [] {
    } else {
      ContainsIff(s[1..], sub);
      if Contains(s[1..], sub) {
        var i :| OccursAt(s[1..], sub, i);
        assert s[i + 1..i + 1 + |sub|] == s[1..][i..i + |sub|];
        assert OccursAt(s, sub, i + 1);
      }
      forall i | OccursAt(s, sub, i) ensures Contains(s[1..], sub) {
        if i == 0 {
          assert false;
        }
        assert s[1..][i - 1..i - 1 + |sub|] == s[i..i + |sub|];
        assert OccursAt(s[1..], sub, i - 1);
      }
    }
  }

  /** strings.TrimPrefix: drops `prefix` once if `s` starts with it. */
  function TrimPrefix(s: string, prefix: string): (r: string)
    ensures HasPrefix(s, prefix) ==> prefix + r == s
    ensures !HasPrefix(s, prefix) ==> r == s
  {
    if HasPrefix(s, prefix) then
      assert s == s[..|prefix|] + s[|prefix|..];
      s[|prefix|..]
    else s
  }

  /**
   * The characters a trim cuts: those of a cutset string (strings.Trim,
   * strings.TrimRight) or the white space of unicode.IsSpace
   * (strings.TrimSpace).
   */
  datatype CutSet = Chars(cutset: string) | Spaces

  predicate Cuts(k: CutSet, c: char)
  {
    match k
    case Chars(cs) => c in cs
    case Spaces => IsSpace(c)
  }

  /** strings.TrimLeft: drops cut characters from the front. */
  function TrimLeft(s: string, k: CutSet): string
    decreases |s|
  {
    if s != [] && Cuts(k, s[0]) then TrimLeft(s[1..], k) else s
  }

  /** TrimLeft leaves the longest suffix of `s` that does not start with a cut character. */
  lemma {:induction false} TrimLeftShape(s: string, k: CutSet)
    ensures var r := TrimLeft(s, k);
      |r| <= |s| && r == s[|s| - |r|..] && (r != [] ==> !Cuts(k, r[0])) &&
      forall i :: 0 <= i < |s| - |r| ==> Cuts(k, s[i])
    decreases |s|
  {
    if s != [] && Cuts(k, s[0]) {
      TrimLeftShape(s[1..], k);
      assert forall i :: 1 <= i < |s| ==> s[i] == s[1..][i - 1];
    }
  }

  /** strings.TrimRight: drops cut characters from the back. */
  function TrimRight(s: string, k: CutSet): string
    decreases |s|
  {
    if s != [] && Cuts(k, s[|s| - 1]) then TrimRight(s[..|s| - 1], k) else s
  }

  /** TrimRight leaves the longest prefix of `s` that does not end with a cut character. */
  lemma {:induction false} TrimRightShape(s: string, k: CutSet)
    ensures var r := TrimRight(s, k);
      |r| <= |s| && r == s[..|r|] && (r != [] ==> !Cuts(k, r[|r| - 1])) &&
      forall i :: |r| <= i < |s| ==> Cuts(k, s[i])
    decreases |s|
  {
    if s != [] && Cuts(k, s[|s| - 1]) {
      TrimRightShape(s[..|s| - 1], k);
    }
  }

  /** strings.Trim and strings.TrimSpace: cuts both ends, the left first. */
  function TrimEnds(s: string, k: CutSet): string
  {
    TrimRight(TrimLeft(s, k), k)
  }

  /** TrimEnds leaves a piece of `s` that neither starts nor ends with a cut character. */
  lemma TrimEndsShape(s: string, k: CutSet)
    ensures var r := TrimEnds(s, k);
      (r != [] ==> !Cuts(k, r[0]) && !Cuts(k, r[|r| - 1])) &&
      forall c :: c in r ==> c in s
  {
    var l := TrimLeft(s, k);
    TrimLeftShape(s, k);
    TrimRightShape(l, k);
    var r := TrimRight(l, k);
    if r != [] {
      assert r[0] == l[0];
    }
  }

  /** A string that neither starts nor ends with a cut character is left alone. */
  lemma TrimEndsUntouched(s: string, k: CutSet)
    requires s != [] ==> !Cuts(k, s[0]) && !Cuts(k, s[|s| - 1])
    ensures TrimEnds(s, k) == s
  {
  }

  /** Cutting one cut character off each end first does not change the result. */
  lemma {:induction false} TrimEndsWrapped(c: char, s: string, d: char, k: CutSet)
    requires Cuts(k, c) && Cuts(k, d)
    ensures TrimEnds([c] + s + [d], k) == TrimEnds(s, k)
  {
    var w := [c] + s + [d];
    assert w[1..] == s + [d];
    TrimLeftThenCutEnd(s, d, k);
  }

  /** Helper: with a cut character appended, trimming the left and then the right removes it. */
  lemma {:induction false} TrimLeftThenCutEnd(s: string, c: char, k: CutSet)
    requires Cuts(k, c)
    ensures TrimRight(TrimLeft(s + [c], k), k) == TrimRight(TrimLeft(s, k), k)
    decreases |s|
  {
    if s == [] {
      assert TrimLeft([c], k) == TrimLeft([c][1..], k);
    } else if Cuts(k, s[0]) {
      assert (s + [c])[1..] == s[1..] + [c];
      TrimLeftThenCutEnd(s[1..], c, k);
    } else {
      assert TrimLeft(s + [c], k) == s + [c];
      assert (s + [c])[..|s + [c]| - 1] == s;
    }
  }

  /** strings.Trim(s, cutset) */
  function Trim(s: string, cutset: string): string
  {
    TrimEnds(s, Chars(cutset))
  }

  /**
   * unicode.IsSpace: the Latin-1 spaces '\t', '\n', '\v', '\f', '\r', ' ',
   * U+0085 and U+00A0, and the other characters with the White_Space property.
   */
  predicate IsSpace(c: char)
  {
    c == '\t' || c == '\n' || c == '\U{000B}' || c == '\U{000C}' || c == '\r' || c == ' '
    || c == '\U{0085}' || c == '\U{00A0}' || c == '\U{1680}'
    || ('\U{2000}' <= c <= '\U{200A}')
    || c == '\U{2028}' || c == '\U{2029}' || c == '\U{202F}' || c == '\U{205F}' || c == '\U{3000}'
  }

  /** strings.TrimSpace */
  function TrimSpace(s: string): (r: string)
    ensures r != [] ==> !IsSpace(r[0]) && !IsSpace(r[|r| - 1])
  {
    TrimEndsShape(s, Spaces);
    TrimEnds(s, Spaces)
  }

  /** Lookup in a Go map[string]string: "" for a missing key. */
  function Get(m: map<string, string>, k: string): string
  {
    if k in m then m[k] else ""
  }

  /** strings.Join */
  function Join(elems: seq<string>, sep: string): (r: string)
    ensures elems == [] ==> r == ""
    ensures |elems| == 1 ==> r == elems[0]
    decreases |elems|
  {
    if elems == [] then ""
    else if |elems| == 1 then elems[0]
    else Join(elems[..|elems| - 1], sep) + sep + elems[|elems| - 1]
  }

  /** Joining one more element at the front puts the separator between it and the rest. */
  lemma {:induction false} JoinCons(first: string, elems: seq<string>, sep: string)
    requires elems != []
    ensures Join([first] + elems, sep) == first + sep + Join(elems, sep)
    decreases |elems|
  {
    var all := [first] + elems;
    if |elems| > 1 {
      var init := elems[..|elems| - 1];
      assert all[..|all| - 1] == [first] + init;
      JoinCons(first, init, sep);
    } else {
      assert all[..|all| - 1] == [first];
    }
  }

  /** A character outside every element and outside the separator is outside the joined string. */
  lemma {:induction false} JoinAvoids(elems: seq<string>, sep: string, c: char)
    requires c !in sep
    requires forall i :: 0 <= i < |elems| ==> c !in elems[i]
    ensures c !in Join(elems, sep)
    decreases |elems|
  {
    if |elems| > 1 {
      JoinAvoids(elems[..|elems| - 1], sep, c);
    }
  }
}
