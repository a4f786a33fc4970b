/**
 Which files the gate takes for knowledge at all (`_is_candidate` in src/arail/compiled_kb.py), by folder, stem and
 suffix.
 */
module GateCandidates {
  import opened Basics
  import opened CompiledKb

  /** Nothing, or a path down to a folder. */
  predicate IsFolder(dir: string) {
    dir == "" || dir[|dir| - 1] == '/'
  }

  predicate IsName(name: string) {
    name != "" && '/' !in name
  }

  lemma {:induction false} LastPartOf(dir: string, name: string)
    requires IsFolder(dir) && '/' !in name
    ensures LastPart(dir + name) == name
    decreases |name|
  {
    if name == "" {
      assert dir + name == dir;
    } else {
      var front, c := name[..|name| - 1], name[|name| - 1];
      LastPartOf(dir, front);
      assert (dir + name)[..|dir + name| - 1] == dir + front && name == front + [c];
    }
  }

  lemma FileNameOf(dir: string, name: string)
    requires IsFolder(dir) && IsName(name)
    ensures FileName(dir + name) == name
  {
    LastPartOf(dir, name);
    assert (dir + name)[|dir + name| - 1] == name[|name| - 1];
  }

  /** Slashes at the end do not count. */
  lemma TrailingSlash(rel: string)
    ensures FileName(rel + "/") == FileName(rel)
  {
    assert (rel + "/")[..|rel + "/"| - 1] == rel;
  }

  /** A suffix as a file name can end in: a dot, and behind it no other. */
  predicate IsExt(ext: string) {
    |ext| >= 2 && ext[0] == '.' && '.' !in ext[1..]
  }

  lemma {:induction false} SuffixFrom(stem: string, ext: string, at: nat)
    requires stem != "" && IsExt(ext) && |stem| < at <= |stem + ext|
    ensures Suffix(stem + ext, at) == ext
    decreases at
  {
    var name := stem + ext;
    if at == |stem| + 1 {
      assert name[at - 1] == '.' && name[at - 1..] == ext;
    } else {
      assert name[at - 1] == ext[1..][at - |stem| - 2];
      SuffixFrom(stem, ext, at - 1);
    }
  }

  lemma {:induction false} NoSuffix(name: string, at: nat)
    requires at <= |name| && forall i :: 1 <= i < at ==> name[i] != '.'
    ensures Suffix(name, at) == ""
  {
    if at > 1 {
      NoSuffix(name, at - 1);
    }
  }

  /** The files that describe a folder rather than belong to it. */
  predicate IsFurniture(name: string) {
    Lower(name) == "agent.md" || Lower(name) == "decisions.md" || Lower(name) == "readme.md" || Lower(name) == "skill.md"
  }

  predicate IsText(ext: string) {
    Lower(ext) == ".md" || Lower(ext) == ".markdown" || Lower(ext) == ".txt"
  }

  /** A file is a candidate exactly when it is text, no furniture, hidden nowhere, and neither compiled nor the index. */
  lemma CandidateIff(dir: string, stem: string, ext: string)
    requires IsFolder(dir) && IsName(stem) && IsExt(ext) && '/' !in ext
    ensures var rel := dir + (stem + ext);
            IsCandidate(rel) <==>
            IsText(ext) && !IsFurniture(stem + ext) && !HasHiddenPart(rel) && !StartsWith(rel, "compiled/") && rel != "index.md"
  {
    FileNameOf(dir, stem + ext);
    SuffixFrom(stem, ext, |stem + ext|);
  }

  /** A file without a suffix is none, nor one whose only dot is its last character. */
  lemma NoExtNoCandidate(dir: string, name: string)
    requires IsFolder(dir) && IsName(name) && forall i :: 1 <= i < |name| ==> name[i] != '.'
    ensures !IsCandidate(dir + name) && !IsCandidate(dir + (name + "."))
  {
    NoSuffix(name, |name|);
    EmptySuffixIsNone(dir, name);
    assert name + "." != "" && '/' !in name + ".";
    EmptySuffixIsNone(dir, name + ".");
  }

  lemma EmptySuffixIsNone(dir: string, name: string)
    requires IsFolder(dir) && IsName(name) && Suffix(name, |name|) == ""
    ensures !IsCandidate(dir + name)
  {
    FileNameOf(dir, name);
  }

  /** Furniture is no candidate, in whatever folder. */
  lemma FurnitureIsNone(dir: string, name: string)
    requires IsFolder(dir) && IsName(name) && IsFurniture(name)
    ensures !IsCandidate(dir + name)
  {
    FileNameOf(dir, name);
  }

  lemma {:induction false} LowerKeepsSlug(s: string)
    requires forall i :: 0 <= i < |s| ==> SlugChar(s[i])
    ensures Lower(s) == s
  {
    if s != "" {
      LowerKeepsSlug(s[1..]);
    }
  }

  lemma {:induction false} LowerConcat(a: string, b: string)
    ensures Lower(a + b) == Lower(a) + Lower(b)
  {
    if a == "" {
      assert a + b == b;
    } else {
      LowerConcat(a[1..], b);
      LowerStep(a, b);
      Associates(LowerChar(a[0]), Lower(a[1..]), Lower(b));
    }
  }

  lemma LowerStep(a: string, b: string)
    requires a != ""
    ensures Lower(a + b) == LowerChar(a[0]) + Lower(a[1..] + b)
  {
    assert (a + b)[1..] == a[1..] + b;
  }

  lemma Associates(a: string, b: string, c: string)
    ensures a + (b + c) == a + b + c
  {
  }

  lemma LowerOfMd()
    ensures Lower(".md") == ".md"
  {
    assert Lower("d") == "d" && ".md"[1..] == "md" && "md"[1..] == "d";
  }

  predicate IsFurnitureStem(slug: string) {
    slug == "agent" || slug == "decisions" || slug == "readme" || slug == "skill"
  }

  lemma LowerOfPage(slug: string)
    requires forall i :: 0 <= i < |slug| ==> SlugChar(slug[i])
    ensures Lower(slug + ".md") == slug + ".md"
  {
    LowerKeepsSlug(slug);
    LowerConcat(slug, ".md");
    LowerOfMd();
  }

  lemma StemOfFurniture(slug: string)
    requires forall i :: 0 <= i < |slug| ==> SlugChar(slug[i])
    ensures IsFurniture(slug + ".md") <==> IsFurnitureStem(slug)
  {
    LowerOfPage(slug);
    SameStem(slug, "agent", "agent.md");
    SameStem(slug, "decisions", "decisions.md");
    SameStem(slug, "readme", "readme.md");
    SameStem(slug, "skill", "skill.md");
  }

  lemma SameStem(slug: string, stem: string, name: string)
    requires name == stem + ".md"
    ensures slug + ".md" == name <==> slug == stem
  {
    if slug + ".md" == name {
      assert slug == (slug + ".md")[..|slug|] && stem == name[..|stem|];
    }
  }

  function TermFolder(world: string): string {
    "sources/world-" + world + "/terms/"
  }

  lemma TermPathParts(world: string, slug: string)
    ensures TermPath(world, slug) == TermFolder(world) + (slug + ".md") && IsFolder(TermFolder(world))
  {
  }

  lemma TermPathIsPlain(world: string, slug: string)
    requires IsTermPathOf(TermPath(world, slug), world, slug)
    ensures var rel := TermPath(world, slug); !HasHiddenPart(rel) && !StartsWith(rel, "compiled/") && rel != "index.md"
  {
    var rel := TermPath(world, slug);
    assert rel[0] == 's' && rel[|rel| - 3..] == ".md" && rel[|rel| - 4] == slug[|slug| - 1];
    forall i | 0 <= i < |rel| - 1 && rel[i] == '/' ensures rel[i + 1] != '.' {
      TermPathLetters(world, slug, i + 1);
    }
  }

  /** A staged term page is always a candidate, but for the four whose slug names a piece of furniture. */
  lemma TermPageIsCandidate(world: string, slug: string)
    requires IsTermPathOf(TermPath(world, slug), world, slug)
    ensures IsCandidate(TermPath(world, slug)) <==> !IsFurnitureStem(slug)
  {
    TermPathParts(world, slug);
    TermPathIsPlain(world, slug);
    StemOfFurniture(slug);
    LowerOfMd();
    CandidateIff(TermFolder(world), slug, ".md");
  }

  /** Some term of the bundle has this slug. */
  predicate SomeTerm(terms: Terms, slug: string) {
    exists term :: term in terms && term.Some? && SafeTermSlug(term.value) == slug
  }

  lemma SameTermPath(world: string, a: string, b: string)
    ensures TermPath(world, a) == TermPath(world, b) <==> a == b
  {
    var head := TermFolder(world);
    TermPathParts(world, a);
    TermPathParts(world, b);
    if TermPath(world, a) == TermPath(world, b) {
      assert a + ".md" == TermPath(world, a)[|head|..] && b + ".md" == TermPath(world, b)[|head|..];
      SameStem(a, b, b + ".md");
    }
  }

  /**
   What a mount admits: in a world that may be mounted, automatic approval not being switched off, exactly the
   pages that some term of the bundle names, that are there, neither dismissed nor revoked, and no furniture.
   */
  lemma MountAdmitsIff(s: State, world: string, terms: Terms, slug: string)
    requires slug != "" && forall i :: 0 <= i < |slug| ==> SlugChar(slug[i])
    ensures var p := TermPath(world, slug);
            p in AutoTargets(s, world, terms) <==>
            && WorldSlug(world) && !s.tree.autoDisabled && SomeTerm(terms, slug)
            && s.tree.isFile(p) && p !in s.rejected && p !in s.unapproved && !IsFurnitureStem(slug)
  {
    var p := TermPath(world, slug);
    if WorldSlug(world) {
      assert IsTermPathOf(p, world, slug);
      TermPageIsCandidate(world, slug);
    }
    if term :| term in terms && term.Some? && SafeTermSlug(term.value) == slug {
      assert AutoCandidate(s, world, term) <==> p !in s.rejected + s.unapproved && IsCandidate(p) && s.tree.isFile(p);
    }
    if term :| term in terms && AutoCandidate(s, world, term) && p == TermPath(world, SafeTermSlug(term.value)) {
      SameTermPath(world, SafeTermSlug(term.value), slug);
    }
  }
}
