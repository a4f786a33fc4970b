/**
 How the gate reads a path it is given (`_clean_rel` in src/arail/compiled_kb.py): which paths it refuses, and what is
 left of the others.
 */
module GatePaths {
  import opened Basics
  import opened CompiledKb
  import opened ReviewQueue

  /** `split("/")`. */
  function Components(s: string): (parts: seq<string>)
    ensures parts != []
    decreases |s|
  {
    var n := UpToSlash(s);
    if n == |s| then [s] else [s[..n]] + Components(s[n + 1..])
  }

  lemma OneComponent(s: string)
    requires '/' !in s
    ensures HasDotDot(s) <==> s == ".."
  {
    if s == ".." {
      assert IsDotDotAt(s, 0);
    }
    if HasDotDot(s) {
      var i :| 0 <= i <= |s| - 2 && IsDotDotAt(s, i);
      assert i == 0 && |s| == 2;
    }
  }

  lemma FirstComponent(part: string, rest: string)
    requires '/' !in part
    ensures HasDotDot(part + "/" + rest) <==> part == ".." || HasDotDot(rest)
  {
    var s, n := part + "/" + rest, |part|;
    if part == ".." {
      assert IsDotDotAt(s, 0);
    }
    if HasDotDot(rest) {
      var j :| 0 <= j <= |rest| - 2 && IsDotDotAt(rest, j);
      LaterDotDot(part, rest, j);
      assert IsDotDotAt(s, n + 1 + j);
    }
    if HasDotDot(s) {
      var i :| 0 <= i <= |s| - 2 && IsDotDotAt(s, i);
      EarlierDotDot(part, rest, i);
    }
  }

  lemma LaterDotDot(part: string, rest: string, j: nat)
    requires j <= |rest| - 2
    ensures IsDotDotAt(part + "/" + rest, |part| + 1 + j) <==> IsDotDotAt(rest, j)
  {
    var s, n := part + "/" + rest, |part|;
    assert s[n] == '/' && forall k :: 0 <= k < |rest| ==> s[n + 1 + k] == rest[k];
  }

  lemma EarlierDotDot(part: string, rest: string, i: nat)
    requires '/' !in part && i <= |part + "/" + rest| - 2 && IsDotDotAt(part + "/" + rest, i)
    ensures part == ".." || HasDotDot(rest)
  {
    var s, n := part + "/" + rest, |part|;
    assert s[n] == '/' && forall k :: 0 <= k < n ==> s[k] == part[k];
    if i > n {
      LaterDotDot(part, rest, i - n - 1);
    } else {
      assert i + 2 <= n;
      assert part == "..";
    }
  }

  /** What the guard looks for is a component that is `..`. */
  lemma {:induction false} DotDotIsComponent(rel: string)
    ensures HasDotDot(rel) <==> ".." in Components(rel)
    decreases |rel|
  {
    var n := UpToSlash(rel);
    if n == |rel| {
      assert rel[..n] == rel;
      OneComponent(rel);
    } else {
      DotDotIsComponent(rel[n + 1..]);
      FirstComponent(rel[..n], rel[n + 1..]);
      assert rel == rel[..n] + "/" + rel[n + 1..];
    }
  }

  /** A file is hidden exactly where a component begins with a dot. */
  ghost predicate SomeHidden(parts: seq<string>) {
    exists i :: 0 <= i < |parts| && parts[i] != "" && parts[i][0] == '.'
  }

  lemma HiddenFirst(part: string, rest: string)
    requires '/' !in part
    ensures HasHiddenPart(part + "/" + rest) <==> (part != "" && part[0] == '.') || HasHiddenPart(rest)
  {
    var s, n := part + "/" + rest, |part|;
    assert s[n] == '/' && (forall k :: 0 <= k < n ==> s[k] == part[k]) && forall k :: 0 <= k < |rest| ==> s[n + 1 + k] == rest[k];
    if rest != "" && rest[0] == '.' {
      assert s[n] == '/' && s[n + 1] == '.';
    }
    if j :| 0 <= j < |rest| - 1 && rest[j] == '/' && rest[j + 1] == '.' {
      assert s[n + 1 + j] == '/' && s[n + 1 + (j + 1)] == '.';
    }
    if i :| 0 <= i < |s| - 1 && s[i] == '/' && s[i + 1] == '.' {
      assert i >= n;
      if i > n {
        assert rest[i - n - 1] == '/' && rest[i - n] == '.';
      }
    }
  }

  lemma HiddenAlone(s: string)
    requires '/' !in s
    ensures HasHiddenPart(s) <==> s != "" && s[0] == '.'
  {
    assert s != "" && s[0] == '.' ==> s[..1] == ".";
  }

  lemma {:induction false} HiddenIsComponent(rel: string)
    ensures HasHiddenPart(rel) <==> SomeHidden(Components(rel))
    decreases |rel|
  {
    var n := UpToSlash(rel);
    if n == |rel| {
      assert rel[..n] == rel;
      HiddenAlone(rel);
      assert Components(rel)[0] == rel;
    } else {
      var rest := Components(rel[n + 1..]);
      HiddenIsComponent(rel[n + 1..]);
      HiddenFirst(rel[..n], rel[n + 1..]);
      assert rel == rel[..n] + "/" + rel[n + 1..];
      HiddenCons(rel[..n], rest);
    }
  }

  lemma HiddenCons(part: string, rest: seq<string>)
    ensures SomeHidden([part] + rest) <==> (part != "" && part[0] == '.') || SomeHidden(rest)
  {
    var all := [part] + rest;
    assert all[0] == part && forall i :: 0 <= i < |rest| ==> all[i + 1] == rest[i];
    if j :| 0 <= j < |rest| && rest[j] != "" && rest[j][0] == '.' {
      assert all[j + 1] == rest[j];
    }
  }

  /** All of it is whitespace, or all slashes. */
  predicate AllSpace(s: string) {
    forall i :: 0 <= i < |s| ==> IsSpace(s[i])
  }

  predicate AllSlashes(s: string) {
    forall i :: 0 <= i < |s| ==> s[i] == '/'
  }

  lemma {:induction false} StripLeftDrops(s: string) returns (blanks: string)
    ensures AllSpace(blanks) && s == blanks + StripLeft(s)
  {
    if s == "" || !IsSpace(s[0]) {
      blanks := "";
    } else {
      blanks := StripLeftDrops(s[1..]);
      blanks := [s[0]] + blanks;
    }
  }

  lemma {:induction false} StripRightDrops(s: string) returns (blanks: string)
    ensures AllSpace(blanks) && s == StripRight(s) + blanks
  {
    if s == "" || !IsSpace(s[|s| - 1]) {
      blanks := "";
    } else {
      blanks := StripRightDrops(s[..|s| - 1]);
      blanks := blanks + [s[|s| - 1]];
    }
  }

  lemma {:induction false} StripSlashesDrops(s: string) returns (slashes: string)
    ensures AllSlashes(slashes) && s == slashes + StripSlashes(s)
  {
    if s == "" || s[0] != '/' {
      slashes := "";
    } else {
      slashes := StripSlashesDrops(s[1..]);
      slashes := [s[0]] + slashes;
    }
  }

  lemma {:induction false} StripRightKeepsFront(s: string)
    ensures StripRight(s) <= s
  {
    if s != "" && IsSpace(s[|s| - 1]) {
      StripRightKeepsFront(s[..|s| - 1]);
    }
  }

  /**
   What is left of a path: with slashes for backslashes, blanks go from both ends and then slashes from the
   front, and nothing else goes; what is left begins with no slash and ends in no blank.
   */
  lemma NormalIs(raw: string) returns (before: string, slashes: string, after: string)
    ensures AllSpace(before) && AllSlashes(slashes) && AllSpace(after)
    ensures Slashes(raw) == before + (slashes + Normal(raw)) + after
    ensures Normal(raw) != "" ==> Normal(raw)[0] != '/' && !IsSpace(Normal(raw)[|Normal(raw)| - 1])
    ensures slashes == "" && Normal(raw) != "" ==> !IsSpace(Normal(raw)[0])
  {
    var right := StripLeft(Slashes(raw));
    var kept := StripRight(right);
    before := StripLeftDrops(Slashes(raw));
    after := StripRightDrops(right);
    slashes := StripSlashesDrops(kept);
    StripRightKeepsFront(right);
    Ends(slashes, Normal(raw), kept);
    ThreeParts(before, kept, after, right, Slashes(raw));
  }

  lemma Ends(slashes: string, name: string, kept: string)
    requires kept == slashes + name
    ensures name != "" ==> kept != "" && kept[|kept| - 1] == name[|name| - 1] && (slashes == "" ==> kept[0] == name[0])
  {
  }

  lemma ThreeParts(before: string, kept: string, after: string, right: string, s: string)
    requires s == before + right && right == kept + after
    ensures s == before + kept + after
  {
  }

  lemma NormalLacksBackslash(raw: string)
    ensures '\\' !in Normal(raw)
  {
    var before, slashes, after := NormalIs(raw);
    assert forall i :: 0 <= i < |Normal(raw)| ==> Normal(raw)[i] == Slashes(raw)[|before| + |slashes| + i];
  }

  /**
   A path is refused exactly when nothing is left of it or a component of what is left is `..`; any other is
   relative and without a backslash, so that it stays under the root.
   */
  lemma CleanRelIff(raw: string)
    ensures CleanRel(raw).None? <==> Normal(raw) == "" || ".." in Components(Normal(raw))
    ensures CleanRel(raw).Some? ==>
              var rel := CleanRel(raw).value;
              rel == Normal(raw) && rel != "" && rel[0] != '/' && '\\' !in rel && ".." !in Components(rel)
  {
    DotDotIsComponent(Normal(raw));
    NormalLacksBackslash(raw);
  }

  /** Cleaning a second time changes nothing of a path that begins with no blank. */
  lemma CleanTwice(raw: string)
    requires CleanRel(raw).Some? && !IsSpace(CleanRel(raw).value[0])
    ensures CleanRel(CleanRel(raw).value) == CleanRel(raw)
  {
    var before, slashes, after := NormalIs(raw);
    NormalLacksBackslash(raw);
    assert Slashes(Normal(raw)) == Normal(raw);
  }

  // ----- letters and names -----

  /** The same letter, but for its case. */
  predicate SameLetter(a: char, b: char) {
    || a == b
    || ('A' <= a <= 'Z' && b as int == a as int + 32) || ('A' <= b <= 'Z' && a as int == b as int + 32)
    || (a == '\U{212A}' && b in {'k', 'K'}) || (b == '\U{212A}' && a in {'k', 'K'})
  }

  /** Case makes no difference to a name. */
  lemma {:induction false} CaseDoesNotMatter(a: string, b: string)
    requires |a| == |b| && forall i :: 0 <= i < |a| ==> SameLetter(a[i], b[i])
    ensures Lower(a) == Lower(b)
  {
    if a != "" {
      assert SameLetter(a[0], b[0]);
      CaseDoesNotMatter(a[1..], b[1..]);
    }
  }
}
