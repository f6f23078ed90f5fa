/** Python string operations the converter relies on: substring membership
    (`pat in s`), `str.replace` and the code-point ordering that `sorted`
    uses on file names. */
module PyStrings {

  /** `pat in s` for two Python strings. */
  predicate IsSubstring(pat: string, s: string) {
    exists i :: 0 <= i <= |s| - |pat| && OccursAt(pat, s, i)
  }

  /** `pat` occurs in `s` starting at offset `i`. */
  predicate OccursAt(pat: string, s: string, i: nat)
    requires i <= |s| - |pat|
  {
    s[i..i + |pat|] == pat
  }

  /** `s.replace(pat, rep)` for a non-empty `pat`: scans left to right and
      replaces every non-overlapping occurrence. */
  function Replace(s: string, pat: string, rep: string): (r: string)
    requires |pat| > 0
    ensures |pat| == |rep| ==> |r| == |s|
    ensures forall c :: c in r ==> c in s || c in rep
    decreases |s|
  {
    if |s| < |pat| then s
    else if s[..|pat|] == pat then
      var t := s[|pat|..];
      assert forall c :: c in t ==> c in s;
      rep + Replace(t, pat, rep)
    else
      assert forall c :: c in s[1..] ==> c in s;
      [s[0]] + Replace(s[1..], pat, rep)
  }

  /** A same-length replacement changes a character only inside an
      occurrence of the pattern in the input, and there into the
      replacement's character at the same offset. */
  lemma {:induction false} ReplacePointwise(s: string, pat: string, rep: string, i: nat)
    requires |pat| == |rep| > 0 && i < |s|
    ensures Replace(s, pat, rep)[i] == s[i]
         || exists k: nat :: Inside(s, pat, i, k) && rep[k] == Replace(s, pat, rep)[i]
    decreases |s|
  {
    if |s| < |pat| {
    } else if s[..|pat|] == pat && i < |pat| {
      assert Replace(s, pat, rep) == rep + Replace(s[|pat|..], pat, rep);
      assert Inside(s, pat, i, i);
    } else if s[..|pat|] == pat || i > 0 {
      var d := if s[..|pat|] == pat then |pat| else 1;
      var t := s[d..];
      var rt := Replace(t, pat, rep);
      assert Replace(s, pat, rep)[i] == rt[i - d];
      ReplacePointwise(t, pat, rep, i - d);
      if rt[i - d] != t[i - d] {
        var k: nat :| Inside(t, pat, i - d, k) && rep[k] == rt[i - d];
        InsideShift(s, pat, d, i, k);
      }
    }
  }

  /** A character that does not occur in the pattern is kept. */
  lemma KeptOutsidePattern(s: string, pat: string, rep: string, i: nat)
    requires |pat| == |rep| > 0 && i < |s| && s[i] !in pat
    ensures Replace(s, pat, rep)[i] == s[i]
  {
    ReplacePointwise(s, pat, rep, i);
  }

  /** A character of the result that does not occur in the replacement is
      the input's. */
  lemma KeptOutsideReplacement(s: string, pat: string, rep: string, i: nat)
    requires |pat| == |rep| > 0 && i < |s| && Replace(s, pat, rep)[i] !in rep
    ensures Replace(s, pat, rep)[i] == s[i]
  {
    ReplacePointwise(s, pat, rep, i);
  }

  /** When the pattern and the replacement differ only at offset `d`, a
      changed character is that offset of an occurrence. */
  lemma ReplaceChangeAt(s: string, pat: string, rep: string, i: nat, d: nat)
    requires |pat| == |rep| > 0 && d < |pat| && i < |s|
    requires forall k :: 0 <= k < |pat| && k != d ==> pat[k] == rep[k]
    ensures Replace(s, pat, rep)[i] == s[i]
         || (d <= i && i - d + |pat| <= |s| && s[i - d..i - d + |pat|] == pat && Replace(s, pat, rep)[i] == rep[d])
  {
    ReplacePointwise(s, pat, rep, i);
    if Replace(s, pat, rep)[i] != s[i] {
      var k: nat :| Inside(s, pat, i, k) && rep[k] == Replace(s, pat, rep)[i];
      assert k == d;
    }
  }

  /** A window none of whose characters occurs in the pattern is kept. */
  lemma ReplaceWindowKept(s: string, pat: string, rep: string, w: string, a: nat)
    requires |pat| == |rep| > 0 && a + |w| <= |s| && s[a..a + |w|] == w
    requires forall c :: c in w ==> c !in pat
    ensures Replace(s, pat, rep)[a..a + |w|] == w
  {
    var r := Replace(s, pat, rep);
    forall j | a <= j < a + |w| ensures r[j] == s[j] {
      CharOfOccurrence(s, w, a, j - a);
      assert w[j - a] in w;
      KeptOutsidePattern(s, pat, rep, j);
    }
    assert r[a..a + |w|] == s[a..a + |w|];
  }

  /** A window of the result none of whose characters occurs in the
      replacement was already there in the input. */
  lemma ReplaceWindowBack(s: string, pat: string, rep: string, w: string, a: nat)
    requires |pat| == |rep| > 0 && a + |w| <= |s| && Replace(s, pat, rep)[a..a + |w|] == w
    requires forall c :: c in w ==> c !in rep
    ensures s[a..a + |w|] == w
  {
    var r := Replace(s, pat, rep);
    forall j | a <= j < a + |w| ensures r[j] == s[j] {
      CharOfOccurrence(r, w, a, j - a);
      assert w[j - a] in w;
      KeptOutsideReplacement(s, pat, rep, j);
    }
    assert r[a..a + |w|] == s[a..a + |w|];
  }

  /** Offset `i` of `s` lies at offset `k` of an occurrence of `pat`. */
  ghost predicate Inside(s: string, pat: string, i: nat, k: nat) {
    k < |pat| && k <= i && i - k + |pat| <= |s| && s[i - k..i - k + |pat|] == pat && pat[k] == s[i]
  }

  /** An occurrence in a suffix of `s` is one in `s`, shifted. */
  lemma InsideShift(s: string, pat: string, d: nat, i: nat, k: nat)
    requires d <= i < |s| && Inside(s[d..], pat, i - d, k)
    ensures Inside(s, pat, i, k)
  {
    assert s[d..][i - d - k..i - d - k + |pat|] == s[i - k..i - k + |pat|];
  }

  /** A window of a suffix of `s` is a window of `s`, shifted. */
  lemma WindowShift(s: string, d: nat, i: nat, n: nat)
    requires d <= i && i + n <= |s|
    ensures s[d..][i - d..i - d + n] == s[i..i + n]
  {
  }

  /** Every occurrence of a pattern whose first character does not recur in
      it is replaced: occurrences of such a pattern cannot overlap, so the
      left-to-right scan meets each of them. */
  lemma {:induction false} ReplaceHits(s: string, pat: string, rep: string, i: nat)
    requires |pat| == |rep| > 0 && forall j :: 0 < j < |pat| ==> pat[j] != pat[0]
    requires i + |pat| <= |s| && s[i..i + |pat|] == pat
    ensures Replace(s, pat, rep)[i..i + |pat|] == rep
    decreases |s|, 1
  {
    if i == 0 {
      assert s[..|pat|] == s[i..i + |pat|];
      assert Replace(s, pat, rep) == rep + Replace(s[|pat|..], pat, rep);
    } else if s[..|pat|] == pat && i < |pat| {
      CharOfOccurrence(s, pat, 0, i);
      CharOfOccurrence(s, pat, i, 0);
      assert false;
    } else {
      ReplaceHitsPast(s, pat, rep, i);
    }
  }

  /** `ReplaceHits` for an occurrence past the part `Replace` handles first:
      the pattern itself when the input starts with it, one character
      otherwise. */
  lemma {:induction false} ReplaceHitsPast(s: string, pat: string, rep: string, i: nat)
    requires |pat| == |rep| > 0 && forall j :: 0 < j < |pat| ==> pat[j] != pat[0]
    requires 0 < i && i + |pat| <= |s| && s[i..i + |pat|] == pat
    requires s[..|pat|] != pat || |pat| <= i
    ensures Replace(s, pat, rep)[i..i + |pat|] == rep
    decreases |s|, 0
  {
    var front := if s[..|pat|] == pat then rep else [s[0]];
    var t := s[|front|..];
    ReplaceFront(s, pat, rep);
    WindowShift(s, |front|, i, |pat|);
    ReplaceHits(t, pat, rep, i - |front|);
    SliceAfterFront(front, Replace(t, pat, rep), i, |pat|);
  }

  /** One step of `Replace` on an input at least as long as the pattern. */
  lemma ReplaceFront(s: string, pat: string, rep: string)
    requires |pat| > 0 && |pat| <= |s|
    ensures var front := if s[..|pat|] == pat then rep else [s[0]];
      Replace(s, pat, rep) == front + Replace(s[if s[..|pat|] == pat then |pat| else 1..], pat, rep)
  {
  }

  /** The `j`-th character of an occurrence at `a` is the pattern's. */
  lemma CharOfOccurrence(s: string, pat: string, a: int, j: int)
    ensures 0 <= a && a + |pat| <= |s| && s[a..a + |pat|] == pat && 0 <= j < |pat| ==> s[a + j] == pat[j]
  {
    if 0 <= a && a + |pat| <= |s| && 0 <= j < |pat| {
      assert s[a..a + |pat|][j] == s[a + j];
    }
  }

  /** A window past a prefix `front` is a window of what follows it. */
  lemma SliceAfterFront(front: string, rest: string, i: nat, n: nat)
    requires |front| <= i && i + n <= |front| + |rest|
    ensures (front + rest)[i..i + n] == rest[i - |front|..i - |front| + n]
  {
  }

  /** Without an occurrence of the pattern, `replace` returns its input. */
  lemma {:induction false} ReplaceWithoutOccurrence(s: string, pat: string, rep: string)
    requires |pat| > 0 && !IsSubstring(pat, s)
    ensures Replace(s, pat, rep) == s
    decreases |s|
  {
    if |s| >= |pat| {
      assert !OccursAt(pat, s, 0);
      if IsSubstring(pat, s[1..]) {
        var i :| 0 <= i <= |s[1..]| - |pat| && OccursAt(pat, s[1..], i);
        assert s[1..][i..i + |pat|] == s[i + 1..i + 1 + |pat|];
        assert OccursAt(pat, s, i + 1);
      }
      ReplaceWithoutOccurrence(s[1..], pat, rep);
    }
  }

  /** A character missing from `s` appears in `Replace(s, pat, rep)` only
      inside an inserted copy of `rep`, hence never before offset `d` when
      `rep` holds it at offset `d` alone. */
  lemma {:induction false} MarkerNotEarly(s: string, pat: string, rep: string, d: nat, k: nat)
    requires |pat| == |rep| > 0 && d < |rep| && rep[d] !in s
    requires forall j :: 0 <= j < |rep| && j != d ==> rep[j] != rep[d]
    requires k < |s| && Replace(s, pat, rep)[k] == rep[d]
    ensures k >= d
    decreases |s|
  {
    if |s| < |pat| {
    } else if s[..|pat|] == pat {
      if k >= |pat| {
        var t := s[|pat|..];
        assert Replace(t, pat, rep)[k - |pat|] == rep[d];
        assert forall c :: c in t ==> c in s;
        MarkerNotEarly(t, pat, rep, d, k - |pat|);
      }
    } else if k > 0 {
      assert forall c :: c in s[1..] ==> c in s;
      assert Replace(s[1..], pat, rep)[k - 1] == rep[d];
      MarkerNotEarly(s[1..], pat, rep, d, k - 1);
    }
  }

  /** Replacing back undoes a same-length replacement, provided the
      replacement carries a marker character, at offset `d`, that `s` lacks. */
  lemma {:induction false} ReplaceUndo(s: string, pat: string, rep: string, d: nat)
    requires |pat| == |rep| > 0 && d < |rep| && rep[d] !in s
    requires forall j :: 0 <= j < |rep| && j != d ==> rep[j] != rep[d]
    ensures Replace(Replace(s, pat, rep), rep, pat) == s
    decreases |s|
  {
    var r := Replace(s, pat, rep);
    if |s| < |pat| {
    } else if s[..|pat|] == pat {
      var t := s[|pat|..];
      assert forall c :: c in t ==> c in s;
      ReplaceUndo(t, pat, rep, d);
      assert r[..|rep|] == rep && r[|rep|..] == Replace(t, pat, rep);
      assert s == pat + t;
    } else {
      var t := s[1..];
      assert forall c :: c in t ==> c in s;
      ReplaceUndo(t, pat, rep, d);
      UnmarkedFront(s, pat, rep, d);
      assert r == [s[0]] + Replace(t, pat, rep);
      assert r[1..] == Replace(t, pat, rep);
      assert s == [s[0]] + t;
    }
  }

  /** Where `s` does not start with `pat`, its replacement does not start
      with `rep`: the marker of `rep` cannot come that early. */
  lemma UnmarkedFront(s: string, pat: string, rep: string, d: nat)
    requires |pat| == |rep| > 0 && d < |rep| && rep[d] !in s
    requires forall j :: 0 <= j < |rep| && j != d ==> rep[j] != rep[d]
    requires |s| >= |pat| && s[..|pat|] != pat
    ensures Replace(s, pat, rep)[..|rep|] != rep
  {
    var t := s[1..];
    var r := Replace(s, pat, rep);
    assert r == [s[0]] + Replace(t, pat, rep);
    if d == 0 {
      assert r[0] == s[0] && s[0] in s;
    } else if Replace(t, pat, rep)[d - 1] == rep[d] {
      assert forall c :: c in t ==> c in s;
      MarkerNotEarly(t, pat, rep, d, d - 1);
    } else {
      assert r[d] != rep[d];
    }
  }

  /** `a <= b` on Python strings: lexicographic by code point. Either `a`
      is a prefix of `b`, or at the first offset where they differ `a` has
      the smaller character. */
  function LessEq(a: string, b: string): (r: bool)
    ensures r <==> IsPrefix(a, b) || exists i :: 0 <= i < |a| && i < |b| && SmallerAt(a, b, i)
  {
    if a == [] then true
    else if b == [] then false
    else if a[0] < b[0] then
      assert SmallerAt(a, b, 0);
      true
    else if a[0] == b[0] then
      LessEqTail(a, b);
      LessEq(a[1..], b[1..])
    else
      assert !IsPrefix(a, b);
      assert forall i :: 0 <= i < |a| && i < |b| ==> !SmallerAt(a, b, i) by {
        forall i | 0 <= i < |a| && i < |b| ensures !SmallerAt(a, b, i) {
          if i > 0 {
            assert a[..i][0] == a[0] && b[..i][0] == b[0];
          }
        }
      }
      false
  }

  /** `a` is a prefix of `b`. */
  predicate IsPrefix(a: string, b: string) {
    |a| <= |b| && a == b[..|a|]
  }

  /** `a` and `b` agree before offset `i`, and `a` has the smaller character
      at `i`. */
  predicate SmallerAt(a: string, b: string, i: nat)
    requires i < |a| && i < |b|
  {
    a[..i] == b[..i] && a[i] < b[i]
  }

  /** Two strings with the same first character compare as their tails do. */
  lemma LessEqTail(a: string, b: string)
    requires a != [] && b != [] && a[0] == b[0]
    ensures IsPrefix(a, b) <==> IsPrefix(a[1..], b[1..])
    ensures (exists i :: 0 <= i < |a| && i < |b| && SmallerAt(a, b, i))
        <==> (exists i :: 0 <= i < |a| - 1 && i < |b| - 1 && SmallerAt(a[1..], b[1..], i))
  {
    if IsPrefix(a, b) {
      assert a[1..] == b[1..][..|a| - 1];
    }
    if IsPrefix(a[1..], b[1..]) {
      assert a == [a[0]] + a[1..] && b[..|a|] == [b[0]] + b[1..][..|a| - 1];
    }
    if i :| 0 <= i < |a| && i < |b| && SmallerAt(a, b, i) {
      assert i > 0;
      assert a[1..][..i - 1] == a[..i][1..] && b[1..][..i - 1] == b[..i][1..];
      assert SmallerAt(a[1..], b[1..], i - 1);
    }
    if i :| 0 <= i < |a| - 1 && i < |b| - 1 && SmallerAt(a[1..], b[1..], i) {
      assert a[..i + 1] == [a[0]] + a[1..][..i] && b[..i + 1] == [b[0]] + b[1..][..i];
      assert SmallerAt(a, b, i + 1);
    }
  }

  lemma {:induction false} LessEqTotal(a: string, b: string)
    ensures LessEq(a, b) || LessEq(b, a)
  {
    if a != [] && b != [] && a[0] == b[0] {
      LessEqTotal(a[1..], b[1..]);
    }
  }

  lemma {:induction false} LessEqAntisymmetric(a: string, b: string)
    requires LessEq(a, b) && LessEq(b, a)
    ensures a == b
  {
    if a != [] && b != [] {
      LessEqAntisymmetric(a[1..], b[1..]);
      assert a == [a[0]] + a[1..] && b == [b[0]] + b[1..];
    }
  }

  lemma {:induction false} LessEqTransitive(a: string, b: string, c: string)
    requires LessEq(a, b) && LessEq(b, c)
    ensures LessEq(a, c)
  {
    if a != [] && a[0] == b[0] && b[0] == c[0] {
      LessEqTransitive(a[1..], b[1..], c[1..]);
    }
  }
}
