/** The mapping from a record field's declared name to the key the reply
    documents use for it (`codemodel_v2` is read from `codemodel-v2`,
    `cmakefiles_v1` from `cmakeFiles-v1`). */
module FieldNames {
  import opened PyStrings

  /** `name.replace("_v", "-v").replace("cmakefiles", "cmakeFiles")`. The
      key keeps the name's length. Every `_v` of the name reads `-v` in the
      key, and every `cmakefiles` reads `cmakeFiles`; no other character
      changes. */
  function WireKey(name: string): (key: string)
    ensures |key| == |name|
    ensures forall i :: 0 <= i && i + 2 <= |name| && name[i..i + 2] == "_v" ==> key[i] == '-'
    ensures forall i :: 5 <= i && i + 5 <= |name| && name[i - 5..i + 5] == "cmakefiles" ==> key[i] == 'F'
    ensures forall i :: 0 <= i < |name| ==>
      key[i] == name[i]
      || (key[i] == '-' && i + 2 <= |name| && name[i..i + 2] == "_v")
      || (key[i] == 'F' && 5 <= i && i + 5 <= |name| && name[i - 5..i + 5] == "cmakefiles")
  {
    var key := Replace(Replace(name, "_v", "-v"), "cmakefiles", "cmakeFiles");
    assert forall i :: 0 <= i && i + 2 <= |name| && name[i..i + 2] == "_v" ==> key[i] == '-' by {
      forall i | 0 <= i && i + 2 <= |name| && name[i..i + 2] == "_v" ensures key[i] == '-' {
        VMarkRewritten(name, i);
      }
    }
    assert forall i :: 5 <= i && i + 5 <= |name| && name[i - 5..i + 5] == "cmakefiles" ==> key[i] == 'F' by {
      forall i | 5 <= i && i + 5 <= |name| && name[i - 5..i + 5] == "cmakefiles" ensures key[i] == 'F' {
        CMakeFilesRewritten(name, i - 5);
      }
    }
    ChangesInside(name, key);
    key
  }

  /** The first rule turns the `_` of a `_v` into `-`, and the second rule
      leaves that `-` alone. */
  lemma VMarkRewritten(name: string, i: nat)
    requires i + 2 <= |name| && name[i..i + 2] == "_v"
    ensures Replace(Replace(name, "_v", "-v"), "cmakefiles", "cmakeFiles")[i] == '-'
  {
    var mid := Replace(name, "_v", "-v");
    ReplaceHits(name, "_v", "-v", i);
    assert mid[i] == mid[i..i + 2][0];
    KeptOutsidePattern(mid, "cmakefiles", "cmakeFiles", i);
  }

  /** The first rule leaves a `cmakefiles` alone, and the second turns its
      `f` into `F`. */
  lemma CMakeFilesRewritten(name: string, a: nat)
    requires a + 10 <= |name| && name[a..a + 10] == "cmakefiles"
    ensures Replace(Replace(name, "_v", "-v"), "cmakefiles", "cmakeFiles")[a + 5] == 'F'
  {
    var mid := Replace(name, "_v", "-v");
    CMakeFilesLetters();
    ReplaceWindowKept(name, "_v", "-v", "cmakefiles", a);
    ReplaceHits(mid, "cmakefiles", "cmakeFiles", a);
    CharOfOccurrence(Replace(mid, "cmakefiles", "cmakeFiles"), "cmakeFiles", a, 5);
  }

  /** Every character the two rules change lies inside a `_v` or a
      `cmakefiles` of the name. */
  lemma ChangesInside(name: string, key: string)
    requires key == Replace(Replace(name, "_v", "-v"), "cmakefiles", "cmakeFiles")
    ensures |key| == |name|
    ensures forall i :: 0 <= i < |name| ==>
      key[i] == name[i]
      || (key[i] == '-' && i + 2 <= |name| && name[i..i + 2] == "_v")
      || (key[i] == 'F' && 5 <= i && i + 5 <= |name| && name[i - 5..i + 5] == "cmakefiles")
  {
    forall i | 0 <= i < |name| {
      ChangedInside(name, key, i);
    }
  }

  /** One character of it. */
  lemma ChangedInside(name: string, key: string, i: nat)
    requires key == Replace(Replace(name, "_v", "-v"), "cmakefiles", "cmakeFiles") && i < |name|
    ensures key[i] == name[i]
      || (key[i] == '-' && i + 2 <= |name| && name[i..i + 2] == "_v")
      || (key[i] == 'F' && 5 <= i && i + 5 <= |name| && name[i - 5..i + 5] == "cmakefiles")
  {
    var mid := Replace(name, "_v", "-v");
    if key[i] != mid[i] {
      SecondRuleChanged(name, i);
    } else if mid[i] != name[i] {
      FirstRuleChanged(name, i);
    }
  }

  /** A character the first rule changes is the `_` of a `_v`. */
  lemma FirstRuleChanged(name: string, i: nat)
    requires i < |name| && Replace(name, "_v", "-v")[i] != name[i]
    ensures Replace(name, "_v", "-v")[i] == '-' && i + 2 <= |name| && name[i..i + 2] == "_v"
  {
    ReplaceChangeAt(name, "_v", "-v", i, 0);
  }

  /** A character the second rule changes is the `f` of a `cmakefiles`
      that the first rule left as it was in the name. */
  lemma SecondRuleChanged(name: string, i: nat)
    requires i < |name|
    requires Replace(Replace(name, "_v", "-v"), "cmakefiles", "cmakeFiles")[i] != Replace(name, "_v", "-v")[i]
    ensures Replace(Replace(name, "_v", "-v"), "cmakefiles", "cmakeFiles")[i] == 'F'
    ensures 5 <= i && i + 5 <= |name| && name[i - 5..i + 5] == "cmakefiles"
  {
    var mid := Replace(name, "_v", "-v");
    CMakeFilesLetters();
    ReplaceChangeAt(mid, "cmakefiles", "cmakeFiles", i, 5);
    var a := i - 5;
    assert a + 10 == i + 5 && mid[a..a + 10] == "cmakefiles";
    ReplaceWindowBack(name, "_v", "-v", "cmakefiles", a);
  }

  /** The letters of the two rules: `cmakefiles` shares none with `_v` or
      `-v`, starts with a letter it does not repeat, and differs from
      `cmakeFiles` only at offset 5. */
  lemma CMakeFilesLetters()
    ensures forall c :: c in "cmakefiles" ==> c !in "_v" && c !in "-v"
    ensures forall j :: 0 < j < 10 ==> "cmakefiles"[j] != "cmakefiles"[0]
    ensures forall k :: 0 <= k < 10 && k != 5 ==> "cmakefiles"[k] == "cmakeFiles"[k]
    ensures "cmakefiles"[5] == 'f' && "cmakeFiles"[5] == 'F'
  {
  }

  /** The reverse mapping, from a wire key back to a field name. It is not
      part of the converter; it serves to show that no two field names of
      the identifier kind read the same key. */
  function FieldNameOf(key: string): string {
    Replace(Replace(key, "cmakeFiles", "cmakefiles"), "-v", "_v")
  }

  /** A name without `_v` and without `cmakefiles` is its own wire key. */
  lemma WireKeyIdentity(name: string)
    requires !IsSubstring("_v", name) && !IsSubstring("cmakefiles", name)
    ensures WireKey(name) == name
  {
    ReplaceWithoutOccurrence(name, "_v", "-v");
    ReplaceWithoutOccurrence(name, "cmakefiles", "cmakeFiles");
  }

  /** For a name holding neither `-` (never in a Python identifier) nor an
      upper-case `F`, the wire key maps back to the name. */
  lemma WireKeyRoundTrip(name: string)
    requires '-' !in name && 'F' !in name
    ensures FieldNameOf(WireKey(name)) == name
  {
    var mid := Replace(name, "_v", "-v");
    forall i | 0 <= i < |mid| ensures mid[i] != 'F' {
      ReplacePointwise(name, "_v", "-v", i);
      assert name[i] in name;
    }
    ReplaceUndo(mid, "cmakefiles", "cmakeFiles", 5);
    ReplaceUndo(name, "_v", "-v", 0);
  }

  /** Hence distinct such names never read the same wire key. */
  lemma WireKeyInjective(a: string, b: string)
    requires '-' !in a && 'F' !in a && '-' !in b && 'F' !in b
    requires WireKey(a) == WireKey(b)
    ensures a == b
  {
    WireKeyRoundTrip(a);
    WireKeyRoundTrip(b);
  }

  /** `Replace` passes over a prefix that cannot start an occurrence. */
  lemma {:induction false} ReplaceSkipsPrefix(a: string, b: string, pat: string, rep: string)
    requires |pat| > 0 && pat[0] !in a
    ensures Replace(a + b, pat, rep) == a + Replace(b, pat, rep)
  {
    if a != [] {
      var s := a + b;
      assert s[0] == a[0] && a[0] in a;
      if |s| >= |pat| {
        assert s[..|pat|][0] == a[0];
        assert s[..|pat|] != pat;
        assert Replace(s, pat, rep) == [s[0]] + Replace(s[1..], pat, rep);
        assert s[1..] == a[1..] + b;
        ReplaceSkipsPrefix(a[1..], b, pat, rep);
        assert a == [a[0]] + a[1..];
      } else {
        assert Replace(b, pat, rep) == b;
      }
    } else {
      assert a + b == b;
    }
  }

  /** A string lacking one of the pattern's characters holds no occurrence. */
  lemma NoOccurrenceWithoutChar(s: string, pat: string, j: nat)
    requires j < |pat| && pat[j] !in s
    ensures !IsSubstring(pat, s)
  {
  }

  /** A name `<base>_v<version>` is read from `<base>-v<version>` when
      neither part holds `_` or `k` (so neither can hold `cmakefiles`). */
  lemma VersionedKey(base: string, version: string)
    requires '_' !in base && '_' !in version && 'k' !in base && 'k' !in version
    ensures WireKey(base + "_v" + version) == base + "-v" + version
  {
    ReplaceSkipsPrefix(base, "_v" + version, "_v", "-v");
    assert ("_v" + version)[..2] == "_v" && ("_v" + version)[2..] == version;
    NoOccurrenceWithoutChar(version, "_v", 0);
    ReplaceWithoutOccurrence(version, "_v", "-v");
    var mid := base + "-v" + version;
    assert base + "_v" + version == base + ("_v" + version);
    assert mid == base + ("-v" + version);
    assert forall c :: c in mid ==> c in base || c in version || c == '-' || c == 'v';
    NoOccurrenceWithoutChar(mid, "cmakefiles", 3);
    ReplaceWithoutOccurrence(mid, "cmakefiles", "cmakeFiles");
  }

  /** `cmakefiles_v<version>` is read from `cmakeFiles-v<version>`: both
      rules apply. */
  lemma CMakeFilesVersionedKey(version: string)
    requires '_' !in version && 'k' !in version
    ensures WireKey("cmakefiles_v" + version) == "cmakeFiles-v" + version
  {
    VersionMarked(version);
    CMakeFilesRenamed(version);
  }

  /** The first rule turns `cmakefiles_v<version>` into `cmakefiles-v<version>`. */
  lemma VersionMarked(version: string)
    requires '_' !in version
    ensures Replace("cmakefiles_v" + version, "_v", "-v") == "cmakefiles" + ("-v" + version)
  {
    assert "cmakefiles_v" + version == "cmakefiles" + ("_v" + version);
    assert "cmakefiles" == ['c', 'm', 'a', 'k', 'e', 'f', 'i', 'l', 'e', 's'];
    ReplaceSkipsPrefix("cmakefiles", "_v" + version, "_v", "-v");
    assert ("_v" + version)[..2] == "_v" && ("_v" + version)[2..] == version;
    NoOccurrenceWithoutChar(version, "_v", 0);
    ReplaceWithoutOccurrence(version, "_v", "-v");
  }

  /** The second rule then turns `cmakefiles-v<version>` into
      `cmakeFiles-v<version>`. */
  lemma CMakeFilesRenamed(version: string)
    requires 'k' !in version
    ensures Replace("cmakefiles" + ("-v" + version), "cmakefiles", "cmakeFiles") == "cmakeFiles-v" + version
  {
    var mid := "cmakefiles" + ("-v" + version);
    assert mid[..10] == "cmakefiles" && mid[10..] == "-v" + version;
    assert 'k' !in "-v" + version;
    NoOccurrenceWithoutChar("-v" + version, "cmakefiles", 3);
    ReplaceWithoutOccurrence("-v" + version, "cmakefiles", "cmakeFiles");
    assert "cmakeFiles" + ("-v" + version) == "cmakeFiles-v" + version;
  }

  /** The key of the reply index's code model object. */
  lemma CodemodelKey()
    ensures WireKey("codemodel_v2") == "codemodel-v2"
  {
    assert "codemodel" == ['c', 'o', 'd', 'e', 'm', 'o', 'd', 'e', 'l'];
    assert "codemodel" + "_v" + "2" == "codemodel_v2";
    VersionedKey("codemodel", "2");
  }

  /** The key of the reply index's cache object. */
  lemma CacheKey()
    ensures WireKey("cache_v2") == "cache-v2"
  {
    assert "cache" == ['c', 'a', 'c', 'h', 'e'];
    assert "cache" + "_v" + "2" == "cache_v2";
    VersionedKey("cache", "2");
  }

  /** The key of the reply index's build-file listing object. */
  lemma CMakeFilesKey()
    ensures WireKey("cmakefiles_v1") == "cmakeFiles-v1"
  {
    assert "cmakefiles_v" + "1" == "cmakefiles_v1";
    CMakeFilesVersionedKey("1");
  }
}
