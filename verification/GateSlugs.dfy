/**
 The names of worlds and terms (`_safe_term_slug` and the world-slug pattern of src/arail/compiled_kb.py), said by what
 stays of a name and what does not.
 */
module GateSlugs {
  import opened Basics
  import opened CompiledKb

  /** By code point: the small letters, the digits and the dash, the two ends of each range included. */
  lemma SlugLetters(c: char)
    ensures SlugChar(c) <==> 97 <= c as int <= 122 || 48 <= c as int <= 57 || c as int == 45
  {
    assert 'a' as int == 97 && 'z' as int == 122 && '0' as int == 48 && '9' as int == 57 && '-' as int == 45;
  }

  predicate AllSlug(s: string) {
    forall i :: 0 <= i < |s| ==> SlugChar(s[i])
  }

  predicate NoSlug(s: string) {
    forall i :: 0 <= i < |s| ==> !SlugChar(s[i])
  }

  /** A world's slug is letters, digits and dashes, the first no dash; the pattern lets one newline at the end by. */
  lemma WorldSlugIff(core: string)
    requires '\n' !in core
    ensures WorldSlug(core) <==> core != "" && AllSlug(core) && core[0] != '-'
    ensures WorldSlug(core + "\n") <==> WorldSlug(core)
  {
    var s := core + "\n";
    assert !SlugChar('\n');
    assert forall i :: 0 <= i < |core| ==> s[i] == core[i];
    assert s[|core|] == '\n';
  }

  // ----- what becomes of a run of characters -----

  /** What may be in a slug stays. */
  lemma {:induction false} SlugStays(kept: string, rest: string, inRun: bool)
    requires AllSlug(kept)
    ensures Dashed(kept + rest, inRun) == kept + Dashed(rest, inRun && kept == "")
    decreases |kept|
  {
    if kept == "" {
      assert kept + rest == rest;
    } else {
      SlugStays(kept[1..], rest, false);
      assert (kept + rest)[1..] == kept[1..] + rest && kept == [kept[0]] + kept[1..];
      assert [kept[0]] + (kept[1..] + Dashed(rest, false)) == kept + Dashed(rest, false);
    }
  }

  lemma {:induction false} RunGoes(run: string, rest: string)
    requires NoSlug(run)
    ensures Dashed(run + rest, true) == Dashed(rest, true)
    decreases |run|
  {
    if run == "" {
      assert run + rest == rest;
    } else {
      RunGoes(run[1..], rest);
      assert (run + rest)[1..] == run[1..] + rest;
    }
  }

  /** A run of other characters becomes one dash, however long it is. */
  lemma RunBecomesDash(run: string, rest: string)
    requires run != "" && NoSlug(run) && (rest != "" ==> SlugChar(rest[0]))
    ensures Dashed(run + rest, false) == "-" + Dashed(rest, false)
  {
    RunGoes(run[1..], rest);
    assert (run + rest)[1..] == run[1..] + rest;
    assert Dashed(rest, true) == Dashed(rest, false);
  }

  // ----- the ends -----

  predicate AllDashes(s: string) {
    forall i :: 0 <= i < |s| ==> s[i] == '-'
  }

  lemma {:induction false} LeftDashesGo(s: string) returns (dashes: string)
    requires AllSlug(s)
    ensures AllDashes(dashes) && s == dashes + StripDashesLeft(s)
    ensures StripDashesLeft(s) != "" ==> StripDashesLeft(s)[0] != '-'
  {
    if s == "" || s[0] != '-' {
      dashes := "";
    } else {
      var fewer := LeftDashesGo(s[1..]);
      dashes := [s[0]] + fewer;
      assert s == [s[0]] + s[1..];
      assert [s[0]] + (fewer + StripDashesLeft(s[1..])) == dashes + StripDashesLeft(s[1..]);
    }
  }

  lemma {:induction false} RightDashesGo(s: string) returns (dashes: string)
    requires AllSlug(s)
    ensures AllDashes(dashes) && s == StripDashesRight(s) + dashes
    ensures StripDashesRight(s) <= s
    ensures StripDashesRight(s) != "" ==> StripDashesRight(s)[|StripDashesRight(s)| - 1] != '-'
  {
    if s == "" || s[|s| - 1] != '-' {
      dashes := "";
    } else {
      dashes := RightDashesGo(s[..|s| - 1]);
      dashes := dashes + [s[|s| - 1]];
    }
  }

  /**
   A slug is the first 80 characters of what is left of the name in lower case, its runs of other characters made
   dashes, once the dashes at both ends are gone.
   */
  lemma SlugIs(raw: string) returns (before: string, whole: string, after: string)
    ensures Dashed(Lower(raw), false) == before + whole + after && AllDashes(before) && AllDashes(after)
    ensures whole != "" ==> whole[0] != '-' && whole[|whole| - 1] != '-'
    ensures SafeTermSlug(raw) == if |whole| <= 80 then whole else whole[..80]
  {
    var dashed := Dashed(Lower(raw), false);
    var right := StripDashesLeft(dashed);
    before := LeftDashesGo(dashed);
    after := RightDashesGo(right);
    whole := StripDashesRight(right);
    Joined(before, whole, after, right, dashed);
  }

  lemma Joined(before: string, whole: string, after: string, right: string, all: string)
    requires all == before + right && right == whole + after
    ensures all == before + whole + after
  {
  }

  predicate Trimmed(slug: string) {
    slug == "" || (slug[0] != '-' && slug[|slug| - 1] != '-')
  }

  lemma {:induction false} LowerKeeps(s: string)
    requires AllSlug(s)
    ensures Lower(s) == s
  {
    if s != "" {
      LowerKeeps(s[1..]);
    }
  }

  /**
   Making a slug of a slug changes nothing exactly when no dash is at either end; the cut at 80 characters can
   leave one at the back, and making a slug of that one again takes it off.
   */
  lemma SlugIsStableIff(slug: string)
    requires AllSlug(slug) && |slug| <= 80
    ensures SafeTermSlug(slug) == slug <==> Trimmed(slug)
  {
    LowerKeeps(slug);
    SlugStays(slug, "", false);
    assert slug + "" == slug && Dashed("", false) == "" && slug + Dashed("", false) == slug;
    var before, whole, after := SlugIs(slug);
    if Trimmed(slug) && slug != "" {
      assert StripDashesLeft(slug) == slug && StripDashesRight(slug) == slug;
    }
  }
}
