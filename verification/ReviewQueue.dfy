/**
 The review queue of the compiled knowledge base (src/arail/compiled_kb.py): the full list of pending
 candidates and its cheap variant, which must agree.
 */
module ReviewQueue {
  import opened Basics
  import opened CompiledKb

  /** The world a path belongs to: `sources/world-<slug>/...`. */
  function WorldOf(rel: string): (world: Option<string>) {
    if !StartsWith(rel, "sources/world-") then None
    else
      var n := UpToSlash(rel[14..]);
      if n == 0 || 14 + n == |rel| then None else Some("world-" + rel[14..14 + n])
  }

  /** Characters before the first slash. */
  function UpToSlash(s: string): (n: nat)
    ensures n <= |s| && '/' !in s[..n] && (n < |s| ==> s[n] == '/')
  {
    if s == "" || s[0] == '/' then 0 else 1 + UpToSlash(s[1..])
  }

  predicate EndsWith(s: string, suffix: string) {
    |suffix| <= |s| && s[|s| - |suffix|..] == suffix
  }

  /** `sources/world-<slug>/terms/<name>.md`. */
  predicate IsWorldTerm(rel: string) {
    && WorldOf(rel).Some?
    && var rest := rel[8 + |WorldOf(rel).value|..];
       && StartsWith(rest, "/terms/") && EndsWith(rest[7..], ".md") && |rest| > 10 && '/' !in rest[7..]
  }

  /** Where a path's kind sorts in the queue. */
  function Rank(rel: string): nat {
    if IsWorldTerm(rel) then 0
    else if StartsWith(rel, "sources/scout/") then 1
    else if StartsWith(rel, "agents/research/") || StartsWith(rel, "agents/experiments/")
            || StartsWith(rel, "agents/synthesis/") || StartsWith(rel, "agents/recommendations/") then 2
    else 3
  }

  /** One row of the queue, its title in lower case. */
  datatype Row = Row(path: string, rank: nat, title: string)

  predicate RowLe(x: Row, y: Row) {
    x.rank < y.rank || (x.rank == y.rank && StrLe(x.title, y.title))
  }

  /** The walk over the tree: its files in order, and the title each one's text gives. */
  datatype Walk = Walk(files: seq<string>, title: string -> string)

  predicate Pending(s: State, world: Option<string>, rel: string) {
    && rel !in s.approved && rel !in s.rejected && IsCandidate(rel)
    && (world.Some? ==> WorldOf(rel) == world)
  }

  /** The pending paths among the files, in the order of the walk. */
  function PendingAmong(s: State, world: Option<string>, files: seq<string>): (pending: seq<string>)
    ensures forall p :: p in pending <==> p in files && Pending(s, world, p)
  {
    if files == [] then []
    else
      var last := files[|files| - 1];
      PendingAmong(s, world, files[..|files| - 1]) + if Pending(s, world, last) then [last] else []
  }

  function RowOf(walk: Walk, rel: string): Row {
    Row(rel, Rank(rel), walk.title(rel))
  }

  function RowsOf(walk: Walk, paths: seq<string>): (rows: seq<Row>)
    ensures |rows| == |paths| && forall i :: 0 <= i < |paths| ==> rows[i].path == paths[i]
  {
    seq(|paths|, i requires 0 <= i < |paths| => RowOf(walk, paths[i]))
  }

  function Paths(rows: seq<Row>): (paths: seq<string>)
    ensures |paths| == |rows|
  {
    seq(|rows|, i requires 0 <= i < |rows| => rows[i].path)
  }

  function Least(a: nat, b: nat): nat {
    if a <= b then a else b
  }

  // ----- worlds and kinds, by the shape of a path -----

  function WorldFile(slug: string, rest: string): string {
    "sources/world-" + slug + "/" + rest
  }

  predicate IsPart(s: string) {
    s != "" && '/' !in s
  }

  lemma {:induction false} FirstPart(part: string, rest: string)
    requires '/' !in part
    ensures UpToSlash(part + "/" + rest) == |part|
    decreases |part|
  {
    if part != "" {
      FirstPart(part[1..], rest);
      assert (part + "/" + rest)[1..] == part[1..] + "/" + rest;
    }
  }

  lemma WorldOfFile(slug: string, rest: string)
    requires IsPart(slug)
    ensures WorldOf(WorldFile(slug, rest)) == Some("world-" + slug)
  {
    var rel := WorldFile(slug, rest);
    FirstPart(slug, rest);
    BehindPrefix(slug, rest);
    assert rel[14..14 + |slug|] == slug;
  }

  lemma BehindPrefix(slug: string, rest: string)
    ensures WorldFile(slug, rest)[14..] == slug + "/" + rest && StartsWith(WorldFile(slug, rest), "sources/world-")
  {
  }

  lemma WorldOfParts(rel: string) returns (slug: string, rest: string)
    requires WorldOf(rel).Some?
    ensures IsPart(slug) && rel == WorldFile(slug, rest) && WorldOf(rel) == Some("world-" + slug)
  {
    var tail := rel[14..];
    var n := UpToSlash(tail);
    slug, rest := tail[..n], tail[n + 1..];
    assert tail == slug + "/" + rest && rel == "sources/world-" + tail;
    assert rel[14..14 + n] == slug;
  }

  /** A path is of a world exactly when it lies in that world's folder, one with a name. */
  lemma WorldOfIff(rel: string, slug: string)
    ensures WorldOf(rel) == Some("world-" + slug) <==> IsPart(slug) && exists rest :: rel == WorldFile(slug, rest)
  {
    if IsPart(slug) {
      if rest :| rel == WorldFile(slug, rest) {
        WorldOfFile(slug, rest);
      }
    }
    if WorldOf(rel) == Some("world-" + slug) {
      var own, rest := WorldOfParts(rel);
      SameWorld(own, slug);
    }
  }

  lemma SameWorld(a: string, b: string)
    ensures "world-" + a == "world-" + b <==> a == b
  {
    assert ("world-" + a)[6..] == a && ("world-" + b)[6..] == b;
  }

  function TermFile(slug: string, name: string): string {
    WorldFile(slug, "terms/" + name + ".md")
  }

  /** A path is a world's term exactly when it is a page of that world's `terms` folder. */
  lemma WorldTermIff(rel: string)
    ensures IsWorldTerm(rel) <==> exists slug, name :: IsPart(slug) && IsPart(name) && rel == TermFile(slug, name)
  {
    if IsWorldTerm(rel) {
      WorldTermParts(rel);
    }
    if slug, name :| IsPart(slug) && IsPart(name) && rel == TermFile(slug, name) {
      TermFileIs(slug, name);
    }
  }

  lemma TermFileIs(slug: string, name: string)
    requires IsPart(slug) && IsPart(name)
    ensures IsWorldTerm(TermFile(slug, name))
  {
    var after := "terms/" + name + ".md";
    WorldOfFile(slug, after);
    BehindWorld(slug, after);
    NamedPage(name);
  }

  lemma BehindWorld(slug: string, after: string)
    ensures |WorldFile(slug, after)| >= 8 + |"world-" + slug|
    ensures WorldFile(slug, after)[8 + |"world-" + slug|..] == "/" + after
  {
  }

  lemma NamedPage(name: string)
    requires IsPart(name)
    ensures var rest := "/" + ("terms/" + name + ".md");
            StartsWith(rest, "/terms/") && EndsWith(rest[7..], ".md") && |rest| > 10 && '/' !in rest[7..]
  {
    var rest := "/" + ("terms/" + name + ".md");
    assert rest[7..] == name + ".md" && (name + ".md")[|name|..] == ".md";
  }

  lemma WorldTermParts(rel: string)
    requires IsWorldTerm(rel)
    ensures exists slug, name :: IsPart(slug) && IsPart(name) && rel == TermFile(slug, name)
  {
    var slug, after := WorldOfParts(rel);
    BehindWorld(slug, after);
    SameWorld(slug, WorldOf(rel).value[6..]);
    var name := PageName(after);
    assert rel == TermFile(slug, name);
  }

  lemma PageName(after: string) returns (name: string)
    requires var rest := "/" + after;
             StartsWith(rest, "/terms/") && EndsWith(rest[7..], ".md") && |rest| > 10 && '/' !in rest[7..]
    ensures IsPart(name) && after == "terms/" + name + ".md"
  {
    var rest := "/" + after;
    var page := rest[7..];
    name := page[..|page| - 3];
    assert rest == "/terms/" + page && page == name + ".md";
    assert after == rest[1..] && ("/terms/" + page)[1..] == "terms/" + page;
  }

  /** `rel` lies under this folder. */
  predicate Under(rel: string, folder: string) {
    |folder| <= |rel| && forall i :: 0 <= i < |folder| ==> rel[i] == folder[i]
  }

  predicate IsAgentOutput(rel: string) {
    Under(rel, "agents/research/") || Under(rel, "agents/experiments/") || Under(rel, "agents/synthesis/")
    || Under(rel, "agents/recommendations/")
  }

  lemma UnderIsPrefix(rel: string, folder: string)
    ensures StartsWith(rel, folder) <==> Under(rel, folder)
  {
  }

  /** World terms come first, then scout findings, then what four kinds of agents put out, then all else. */
  lemma RankIs(rel: string)
    ensures Rank(rel) == 0 <==> IsWorldTerm(rel)
    ensures Rank(rel) == 1 <==> Under(rel, "sources/scout/")
    ensures Rank(rel) == 2 <==> IsAgentOutput(rel)
    ensures Rank(rel) <= 3
  {
    UnderIsPrefix(rel, "sources/scout/");
    UnderIsPrefix(rel, "agents/research/");
    UnderIsPrefix(rel, "agents/experiments/");
    UnderIsPrefix(rel, "agents/synthesis/");
    UnderIsPrefix(rel, "agents/recommendations/");
    if IsWorldTerm(rel) {
      assert rel[8] == 'w' && rel[0] == 's';
    }
    assert Under(rel, "sources/scout/") ==> rel[8] == 's' && rel[0] == 's';
    assert IsAgentOutput(rel) ==> rel[0] == 'a';
  }

  /** A queue scoped to a world is the queue, of that world's pages only. */
  lemma ScopedIff(s: State, slug: string, rel: string)
    requires IsPart(slug)
    ensures Pending(s, Some("world-" + slug), rel) <==>
            Pending(s, None, rel) && exists rest :: rel == WorldFile(slug, rest)
  {
    WorldOfIff(rel, slug);
  }

  // ----- the stable sort -----

  predicate Sorted(rows: seq<Row>) {
    forall i, j :: 0 <= i < j < |rows| ==> RowLe(rows[i], rows[j])
  }

  /** A row put behind every row that is not after it. */
  function Insert(row: Row, rows: seq<Row>): seq<Row> {
    if rows == [] || RowLe(rows[|rows| - 1], row) then rows + [row]
    else Insert(row, rows[..|rows| - 1]) + [rows[|rows| - 1]]
  }

  function StableSort(rows: seq<Row>): seq<Row> {
    if rows == [] then [] else Insert(rows[|rows| - 1], StableSort(rows[..|rows| - 1]))
  }

  lemma RowLeOrder(x: Row, y: Row, z: Row)
    ensures RowLe(x, y) || RowLe(y, x)
    ensures RowLe(x, y) && RowLe(y, z) ==> RowLe(x, z)
    ensures RowLe(x, y) && RowLe(y, x) ==> x.rank == y.rank && x.title == y.title
  {
    StrLeTotal(x.title, y.title);
    if StrLe(x.title, y.title) && StrLe(y.title, z.title) {
      StrLeTransitive(x.title, y.title, z.title);
    }
  }

  lemma {:induction false} InsertKeeps(row: Row, rows: seq<Row>)
    ensures multiset(Insert(row, rows)) == multiset(rows) + multiset{row}
  {
    if rows == [] || RowLe(rows[|rows| - 1], row) {
    } else {
      var n := |rows| - 1;
      InsertKeeps(row, rows[..n]);
      assert rows == rows[..n] + [rows[n]];
    }
  }

  lemma InsertMembers(row: Row, rows: seq<Row>, x: Row)
    requires x in Insert(row, rows)
    ensures x == row || x in rows
  {
  }

  lemma {:induction false} InsertSorts(row: Row, rows: seq<Row>)
    requires Sorted(rows)
    ensures Sorted(Insert(row, rows))
  {
    if rows != [] {
      var n := |rows| - 1;
      if RowLe(rows[n], row) {
        forall i | 0 <= i < |rows| ensures RowLe(rows[i], row) {
          RowLeOrder(rows[i], rows[n], row);
        }
      } else {
        InsertSorts(row, rows[..n]);
        var front := Insert(row, rows[..n]);
        forall i | 0 <= i < |front| ensures RowLe(front[i], rows[n]) {
          InsertMembers(row, rows[..n], front[i]);
          RowLeOrder(row, rows[n], rows[n]);
        }
      }
    }
  }

  lemma {:induction false} SortSorts(rows: seq<Row>)
    ensures Sorted(StableSort(rows))
    ensures multiset(StableSort(rows)) == multiset(rows)
  {
    if rows != [] {
      var n := |rows| - 1;
      SortSorts(rows[..n]);
      InsertSorts(rows[n], StableSort(rows[..n]));
      InsertKeeps(rows[n], StableSort(rows[..n]));
      assert rows == rows[..n] + [rows[n]];
    }
  }

  predicate SameKey(x: Row, y: Row) {
    x.rank == y.rank && x.title == y.title
  }

  /** The rows that tie with `like`, in order. */
  function Ties(rows: seq<Row>, like: Row): seq<Row> {
    if rows == [] then []
    else Ties(rows[..|rows| - 1], like) + if SameKey(rows[|rows| - 1], like) then [rows[|rows| - 1]] else []
  }

  lemma TiesSnoc(rows: seq<Row>, row: Row, like: Row)
    ensures Ties(rows + [row], like) == Ties(rows, like) + if SameKey(row, like) then [row] else []
  {
  }

  lemma UnorderedDoNotTie(x: Row, y: Row, like: Row)
    requires !RowLe(x, y)
    ensures !(SameKey(x, like) && SameKey(y, like))
  {
    StrLeTotal(x.title, x.title);
  }

  lemma OnlyOne(rows: seq<Row>, a: seq<Row>, b: seq<Row>)
    requires a == [] || b == []
    ensures rows + a + b == rows + b + a
  {
  }

  lemma {:induction false} InsertTies(row: Row, rows: seq<Row>, like: Row)
    ensures Ties(Insert(row, rows), like) == Ties(rows, like) + if SameKey(row, like) then [row] else []
  {
    if rows == [] || RowLe(rows[|rows| - 1], row) {
      TiesSnoc(rows, row, like);
    } else {
      var n := |rows| - 1;
      InsertTies(row, rows[..n], like);
      TiesSnoc(Insert(row, rows[..n]), rows[n], like);
      UnorderedDoNotTie(rows[n], row, like);
      OnlyOne(Ties(rows[..n], like), if SameKey(row, like) then [row] else [], if SameKey(rows[n], like) then [rows[n]] else []);
    }
  }

  /** The sort is stable: rows that tie keep the order of the walk. */
  lemma {:induction false} SortIsStable(rows: seq<Row>, like: Row)
    ensures Ties(StableSort(rows), like) == Ties(rows, like)
  {
    if rows != [] {
      var n := |rows| - 1;
      SortIsStable(rows[..n], like);
      InsertTies(rows[n], StableSort(rows[..n]), like);
    }
  }

  // ----- the two feeds -----

  /** `pending_paths`. */
  method PendingPaths(s: State, walk: Walk, world: Option<string>) returns (out: seq<string>)
    ensures out == if s.tree.present then PendingAmong(s, world, walk.files) else []
  {
    out := [];
    if !s.tree.present {
      return;
    }
    for i := 0 to |walk.files|
      invariant out == PendingAmong(s, world, walk.files[..i])
    {
      PendingStep(s, world, walk.files, i);
      if Pending(s, world, walk.files[i]) {
        out := out + [walk.files[i]];
      }
    }
    assert walk.files[..|walk.files|] == walk.files;
  }

  lemma PendingStep(s: State, world: Option<string>, files: seq<string>, i: nat)
    requires i < |files|
    ensures PendingAmong(s, world, files[..i + 1])
            == PendingAmong(s, world, files[..i]) + if Pending(s, world, files[i]) then [files[i]] else []
  {
    assert files[..i + 1][..i] == files[..i];
  }

  lemma {:induction false} PendingPrefix(s: State, world: Option<string>, files: seq<string>, i: nat)
    requires i <= |files|
    ensures PendingAmong(s, world, files[..i]) <= PendingAmong(s, world, files)
    decreases |files| - i
  {
    if i < |files| {
      PendingStep(s, world, files, i);
      PendingPrefix(s, world, files, i + 1);
    } else {
      assert files[..i] == files;
    }
  }

  lemma RowsSnoc(walk: Walk, taken: seq<string>, rel: string)
    ensures RowsOf(walk, taken + [rel]) == RowsOf(walk, taken) + [RowOf(walk, rel)]
  {
  }

  lemma TakenIsFirst(pending: seq<string>, taken: seq<string>, most: nat)
    requires taken <= pending && (|taken| == most || (taken == pending && |taken| <= most))
    ensures taken == pending[..Least(|pending|, most)]
  {
  }

  lemma TakeStep(s: State, world: Option<string>, files: seq<string>, i: nat)
    requires i < |files|
    ensures PendingAmong(s, world, files[..i + 1])
            == PendingAmong(s, world, files[..i]) + if Pending(s, world, files[i]) then [files[i]] else []
    ensures PendingAmong(s, world, files[..i + 1]) <= PendingAmong(s, world, files)
  {
    PendingStep(s, world, files, i);
    PendingPrefix(s, world, files, i + 1);
  }

  /** After `i` files of the walk: what was pending among them, and its rows. */
  ghost predicate GatheredTo(s: State, walk: Walk, world: Option<string>, i: nat, taken: seq<string>, out: seq<Row>) {
    && i <= |walk.files| && taken == PendingAmong(s, world, walk.files[..i]) && out == RowsOf(walk, taken)
    && taken <= PendingAmong(s, world, walk.files)
  }

  lemma GatherStep(s: State, walk: Walk, world: Option<string>, i: nat, taken: seq<string>, out: seq<Row>)
    requires i < |walk.files| && GatheredTo(s, walk, world, i, taken, out)
    ensures var rel := walk.files[i];
            if Pending(s, world, rel) then GatheredTo(s, walk, world, i + 1, taken + [rel], out + [RowOf(walk, rel)])
            else GatheredTo(s, walk, world, i + 1, taken, out)
  {
    TakeStep(s, world, walk.files, i);
    RowsSnoc(walk, taken, walk.files[i]);
  }

  lemma GatheredAll(s: State, walk: Walk, world: Option<string>, taken: seq<string>, out: seq<Row>)
    requires GatheredTo(s, walk, world, |walk.files|, taken, out)
    ensures taken == PendingAmong(s, world, walk.files)
  {
    assert walk.files[..|walk.files|] == walk.files;
  }

  /** A file of the walk: its row goes in if it is pending. */
  method GatherOne(s: State, walk: Walk, world: Option<string>, i: nat, out: seq<Row>, ghost taken: seq<string>)
    returns (more: seq<Row>, ghost next: seq<string>)
    requires i < |walk.files| && GatheredTo(s, walk, world, i, taken, out)
    ensures GatheredTo(s, walk, world, i + 1, next, more)
    ensures |more| == |out| + if Pending(s, world, walk.files[i]) then 1 else 0
  {
    GatherStep(s, walk, world, i, taken, out);
    more, next := out, taken;
    if Pending(s, world, walk.files[i]) {
      more := out + [RowOf(walk, walk.files[i])];
      next := taken + [walk.files[i]];
    }
  }

  /** The loop of `list_pending`: it stops at the row that reaches the limit. */
  method GatherRows(s: State, walk: Walk, limit: int, world: Option<string>) returns (out: seq<Row>, ghost taken: seq<string>)
    ensures out == RowsOf(walk, taken)
    ensures taken <= PendingAmong(s, world, walk.files)
    ensures var most := if limit >= 1 then limit else 1;
            |taken| == most || (taken == PendingAmong(s, world, walk.files) && |taken| <= most)
  {
    out, taken := [], [];
    var i := 0;
    while i < |walk.files|
      invariant 0 <= i <= |walk.files| && GatheredTo(s, walk, world, i, taken, out)
      invariant |out| < limit || out == []
    {
      var before := |out|;
      out, taken := GatherOne(s, walk, world, i, out, taken);
      if |out| > before && |out| >= limit {
        return;
      }
      i := i + 1;
    }
    GatheredAll(s, walk, world, taken, out);
  }

  /** `list_pending`; a limit below one still lets one row in. */
  method ListPending(s: State, walk: Walk, limit: int, world: Option<string>) returns (out: seq<Row>)
    ensures !s.tree.present ==> out == []
    ensures s.tree.present ==>
              var pending := PendingAmong(s, world, walk.files);
              out == StableSort(RowsOf(walk, pending[..Least(|pending|, if limit >= 1 then limit else 1)]))
  {
    if !s.tree.present {
      return [];
    }
    ghost var taken;
    out, taken := GatherRows(s, walk, limit, world);
    TakenIsFirst(PendingAmong(s, world, walk.files), taken, if limit >= 1 then limit else 1);
    out := StableSort(out);
  }

  lemma PathsSnoc(rows: seq<Row>, row: Row)
    ensures Paths(rows + [row]) == Paths(rows) + [row.path]
  {
  }

  lemma {:induction false} InsertPaths(row: Row, rows: seq<Row>)
    ensures multiset(Paths(Insert(row, rows))) == multiset(Paths(rows)) + multiset{row.path}
  {
    if rows == [] || RowLe(rows[|rows| - 1], row) {
      PathsSnoc(rows, row);
    } else {
      var n := |rows| - 1;
      InsertPaths(row, rows[..n]);
      PathsSnoc(Insert(row, rows[..n]), rows[n]);
      PathsSnoc(rows[..n], rows[n]);
      assert rows == rows[..n] + [rows[n]];
    }
  }

  lemma {:induction false} SortPaths(rows: seq<Row>)
    ensures multiset(Paths(StableSort(rows))) == multiset(Paths(rows))
  {
    if rows != [] {
      var n := |rows| - 1;
      SortPaths(rows[..n]);
      InsertPaths(rows[n], StableSort(rows[..n]));
      PathsSnoc(rows[..n], rows[n]);
      assert rows == rows[..n] + [rows[n]];
    }
  }

  /** The full feed lists exactly the first `limit` paths of the cheap one, sorted, ties in walk order. */
  lemma FeedsAgree(walk: Walk, pending: seq<string>, limit: nat, like: Row)
    requires limit >= 1
    ensures var first := RowsOf(walk, pending[..Least(|pending|, limit)]);
            var rows := StableSort(first);
            && multiset(Paths(rows)) == multiset(pending[..Least(|pending|, limit)])
            && Sorted(rows)
            && Ties(rows, like) == Ties(first, like)
  {
    var front := pending[..Least(|pending|, limit)];
    var first := RowsOf(walk, front);
    SortSorts(first);
    SortIsStable(first, like);
    SortPaths(first);
    assert Paths(first) == front;
  }

  /** The queue's order, said of the paths: by kind, and within a kind by title, the smaller first. */
  lemma QueueOrder(walk: Walk, paths: seq<string>, i: nat, j: nat)
    requires i < j < |StableSort(RowsOf(walk, paths))|
    ensures var a, b := StableSort(RowsOf(walk, paths))[i].path, StableSort(RowsOf(walk, paths))[j].path;
            && a in paths && b in paths && Rank(a) <= Rank(b)
            && (Rank(a) == Rank(b) ==> StrLe(walk.title(a), walk.title(b)))
  {
    var rows := StableSort(RowsOf(walk, paths));
    SortSorts(RowsOf(walk, paths));
    SortedRow(walk, paths, rows, i);
    SortedRow(walk, paths, rows, j);
    assert RowLe(rows[i], rows[j]);
  }

  lemma SortedRow(walk: Walk, paths: seq<string>, rows: seq<Row>, i: nat)
    requires i < |rows| && multiset(rows) == multiset(RowsOf(walk, paths))
    ensures rows[i].path in paths && rows[i] == RowOf(walk, rows[i].path)
  {
    assert rows[i] in multiset(rows);
    assert rows[i] in RowsOf(walk, paths);
  }

  // ----- approving the queue -----

  /** Approving a whole queue empties it of every path that cleaning leaves as it is. */
  lemma ApprovedQueueIsGone(s: State, walk: Walk, world: Option<string>, record: Record, p: string)
    requires forall f :: f in walk.files ==> s.tree.isFile(f)
    requires p in PendingAmong(s, world, walk.files)
    ensures var queue := PendingAmong(s, world, walk.files);
            var after := ApproveStep(s, Elements(queue), record, 3);
            p in PendingAmong(after, world, walk.files) <==>
            !exists raw :: raw in queue && CleanRel(raw) == Some(p)
  {
  }

  /** A file whose name begins with a blank is listed, and approving its own listed path never approves it. */
  lemma BlankNameStaysPending(s: State, record: Record, rel: string)
    requires rel != "" && IsSpace(rel[0]) && Pending(s, None, rel)
    ensures Pending(ApproveStep(s, {rel}, record, 3), None, rel)
  {
    NormalDropsBlank(rel);
  }

  lemma StripLeftLength(s: string)
    ensures |StripLeft(s)| <= |s| && (s != "" && IsSpace(s[0]) ==> |StripLeft(s)| < |s|)
  {
  }

  lemma StripRightLength(s: string)
    ensures |StripRight(s)| <= |s|
  {
  }

  lemma StripSlashesLength(s: string)
    ensures |StripSlashes(s)| <= |s|
  {
  }

  lemma NormalDropsBlank(rel: string)
    requires rel != "" && IsSpace(rel[0])
    ensures |Normal(rel)| < |rel|
  {
    StripLeftLength(Slashes(rel));
    StripRightLength(StripLeft(Slashes(rel)));
    StripSlashesLength(StripRight(StripLeft(Slashes(rel))));
  }
}
