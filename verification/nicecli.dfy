/** nicecli.py: the table helpers of the second command line (sorting,
    labels, the "nothing found" placeholder, the not-100% filter), how it
    finds a game, and its unlock commands. Drawing the tables is not modelled. */
module Cli {
  import opened Outcomes
  import opened Values
  import opened Seqs
  import opened Structure
  import opened Database
  import opened Finder
  import opened Unlocker

  /** One table line: its cells as text. */
  type Line = seq<string>

  // ---------------------------------------------------------------------------
  // sort_rows

  /** Python's `a < b` on strings: the first differing character decides, and a
      proper prefix comes first. */
  predicate Less(a: string, b: string)
    decreases |a|
  {
    if a == [] then b != []
    else if b == [] then false
    else if a[0] != b[0] then a[0] < b[0]
    else Less(a[1..], b[1..])
  }

  lemma {:induction false} LessIrreflexive(a: string)
    ensures !Less(a, a)
    decreases |a|
  {
    if a != [] {
      LessIrreflexive(a[1..]);
    }
  }

  /** Any two different strings are ordered one way or the other, never both. */
  lemma {:induction false} LessTotal(a: string, b: string)
    ensures a == b || Less(a, b) || Less(b, a)
    ensures !(Less(a, b) && Less(b, a))
    decreases |a|
  {
    if a != [] && b != [] && a[0] == b[0] {
      LessTotal(a[1..], b[1..]);
      if a[1..] == b[1..] {
        assert a == [a[0]] + a[1..] && b == [b[0]] + b[1..];
      }
    }
  }

  lemma {:induction false} LessTransitive(a: string, b: string, c: string)
    requires Less(a, b) && Less(b, c)
    ensures Less(a, c)
    decreases |a|
  {
    if a != [] && a[0] == b[0] && b[0] == c[0] {
      LessTransitive(a[1..], b[1..], c[1..]);
    }
  }

  /** The sort key `x[sindex]`; lines too short for it never reach the sort. */
  function Cell(line: Line, c: nat): string
  {
    if c < |line| then line[c] else ""
  }

  /** Lines in ascending order of column `c`. */
  predicate SortedOn(ls: seq<Line>, c: nat)
  {
    forall i, j | 0 <= i < j < |ls| :: !Less(Cell(ls[j], c), Cell(ls[i], c))
  }

  /** The lines whose column `c` reads `v`. */
  function KeyIs(c: nat, v: string): Line -> bool
  {
    line => Cell(line, c) == v
  }

  /** Places `x` before the first line whose key is not below its own: after
      the smaller keys, ahead of equal ones. */
  function Insert(x: Line, ls: seq<Line>, c: nat): (r: seq<Line>)
    ensures |r| == |ls| + 1
    ensures multiset(r) == multiset(ls) + multiset{x}
  {
    if ls == [] || !Less(Cell(ls[0], c), Cell(x, c)) then [x] + ls
    else
      var r := [ls[0]] + Insert(x, ls[1..], c);
      assert ls == [ls[0]] + ls[1..];
      r
  }

  /** `sorted(lines, key=lambda x: x[c])`, as an insertion sort: each line goes
      in front of the already sorted lines that follow it. */
  function SortOn(ls: seq<Line>, c: nat): (r: seq<Line>)
    ensures |r| == |ls|
    ensures multiset(r) == multiset(ls)
  {
    if ls == [] then []
    else
      var r := Insert(ls[0], SortOn(ls[1..], c), c);
      assert ls == [ls[0]] + ls[1..];
      r
  }

  lemma {:induction false} InsertSorted(x: Line, ls: seq<Line>, c: nat)
    requires SortedOn(ls, c)
    ensures SortedOn(Insert(x, ls, c), c)
    decreases |ls|
  {
    if ls == [] || !Less(Cell(ls[0], c), Cell(x, c)) {
      PrependSorted(x, ls, c);
    } else {
      var rest := Insert(x, ls[1..], c);
      InsertSorted(x, ls[1..], c);
      HeadBelowInserted(x, ls, c);
      assert Insert(x, ls, c) == [ls[0]] + rest;
    }
  }

  /** A line whose key is not above the first key can go in front. */
  lemma PrependSorted(x: Line, ls: seq<Line>, c: nat)
    requires SortedOn(ls, c)
    requires ls == [] || !Less(Cell(ls[0], c), Cell(x, c))
    ensures SortedOn([x] + ls, c)
  {
    var r := [x] + ls;
    forall i, j | 0 <= i < j < |r|
      ensures !Less(Cell(r[j], c), Cell(r[i], c))
    {
      if i == 0 {
        LessTotal(Cell(ls[0], c), Cell(x, c));
        if j > 1 && Less(Cell(r[j], c), Cell(x, c)) {
          assert !Less(Cell(r[j], c), Cell(ls[0], c));
          LessTotal(Cell(r[j], c), Cell(ls[0], c));
          if Cell(r[j], c) != Cell(ls[0], c) {
            LessTransitive(Cell(ls[0], c), Cell(r[j], c), Cell(x, c));
          }
        }
      } else {
        assert r[i] == ls[i - 1] && r[j] == ls[j - 1];
      }
    }
  }

  /** Inserting into the tail keeps every line at or above the head. */
  lemma HeadBelowInserted(x: Line, ls: seq<Line>, c: nat)
    requires SortedOn(ls, c) && ls != [] && Less(Cell(ls[0], c), Cell(x, c))
    ensures forall j | 0 <= j < |Insert(x, ls[1..], c)| ::
      !Less(Cell(Insert(x, ls[1..], c)[j], c), Cell(ls[0], c))
  {
    var rest := Insert(x, ls[1..], c);
    forall j | 0 <= j < |rest|
      ensures !Less(Cell(rest[j], c), Cell(ls[0], c))
    {
      assert rest[j] in multiset(ls[1..]) + multiset{x};
      if rest[j] == x {
        LessTotal(Cell(ls[0], c), Cell(x, c));
      } else {
        assert rest[j] in ls[1..];
        var k :| 0 <= k < |ls[1..]| && ls[1..][k] == rest[j];
        assert ls[k + 1] == rest[j];
      }
    }
  }


  lemma {:induction false} SortOnSorted(ls: seq<Line>, c: nat)
    ensures SortedOn(SortOn(ls, c), c)
    decreases |ls|
  {
    if ls != [] {
      SortOnSorted(ls[1..], c);
      InsertSorted(ls[0], SortOn(ls[1..], c), c);
    }
  }

  /** Inserting `x` leaves the order among the other lines of any one key as it
      was, and puts `x` first among the lines sharing its key. */
  lemma {:induction false} InsertStable(x: Line, ls: seq<Line>, c: nat, v: string)
    ensures Filter(Insert(x, ls, c), KeyIs(c, v)) ==
      (if Cell(x, c) == v then [x] else []) + Filter(ls, KeyIs(c, v))
    decreases |ls|
  {
    var p := KeyIs(c, v);
    var head := if Cell(x, c) == v then [x] else [];
    if ls == [] || !Less(Cell(ls[0], c), Cell(x, c)) {
      var r := [x] + ls;
      assert r[0] == x && r[1..] == ls;
      assert Filter(r, p) == head + Filter(ls, p);
    } else {
      var rest := Insert(x, ls[1..], c);
      var r := [ls[0]] + rest;
      assert r[0] == ls[0] && r[1..] == rest;
      InsertStable(x, ls[1..], c, v);
      if Cell(x, c) == v {
        LessIrreflexive(v);
        assert !p(ls[0]);
        assert Filter(r, p) == Filter(rest, p) == head + Filter(ls[1..], p);
        assert Filter(ls, p) == Filter(ls[1..], p);
      } else {
        assert head == [];
        assert Filter(rest, p) == Filter(ls[1..], p);
        assert Filter(r, p) == (if p(ls[0]) then [ls[0]] else []) + Filter(ls[1..], p);
        assert Filter(ls, p) == (if p(ls[0]) then [ls[0]] else []) + Filter(ls[1..], p);
      }
    }
  }

  /** Lines with equal keys keep their input order: the sort is stable. */
  lemma {:induction false} SortOnStable(ls: seq<Line>, c: nat, v: string)
    ensures Filter(SortOn(ls, c), KeyIs(c, v)) == Filter(ls, KeyIs(c, v))
    decreases |ls|
  {
    if ls != [] {
      SortOnStable(ls[1..], c, v);
      InsertStable(ls[0], SortOn(ls[1..], c), c, v);
    }
  }

  /** `sort_rows(rows, sort)`: with a sort name that matches a header cell,
      ignoring case, the data lines are sorted on the first such column and the
      header stays on top; otherwise the lines come back as they are. A data
      line too short for the column raises. */
  function SortRows(rows: seq<Line>, sort: Option<string>): (r: Result<seq<Line>>)
    ensures !r.Abort?
  {
    if sort.None? then Ok(rows)
    else if rows == [] then Crash("IndexError: list index out of range")
    else
      var c := IndexOf(Map(rows[0], Lower), Lower(sort.value));
      if c == |rows[0]| then Ok(rows)
      else if exists i | 1 <= i < |rows| :: c >= |rows[i]| then Crash("IndexError: list index out of range")
      else Ok([rows[0]] + SortOn(rows[1..], c))
  }

  /** The column chosen: the first header cell equal to `name` once both are
      lower-cased, or one past the end. */
  function SortColumn(header: Line, name: string): (c: nat)
    ensures c <= |header|
    ensures c < |header| ==> Lower(header[c]) == Lower(name)
    ensures forall j | 0 <= j < c :: Lower(header[j]) != Lower(name)
  {
    NoEarlierMatch(header, name);
    IndexOf(Map(header, Lower), Lower(name))
  }

  lemma NoEarlierMatch(header: Line, name: string)
    ensures forall j | 0 <= j < IndexOf(Map(header, Lower), Lower(name)) :: Lower(header[j]) != Lower(name)
  {
    var c := IndexOf(Map(header, Lower), Lower(name));
    forall j | 0 <= j < c
      ensures Lower(header[j]) != Lower(name)
    {
      assert Map(header, Lower)[j] == Lower(header[j]);
      if Lower(header[j]) == Lower(name) {
        IndexOfFirst(Map(header, Lower), Lower(name), j);
      }
    }
  }

  lemma {:induction false} IndexOfFirst(names: seq<string>, n: string, j: nat)
    requires j < |names| && names[j] == n
    ensures IndexOf(names, n) <= j
    decreases j
  {
    if names[0] != n {
      IndexOfFirst(names[1..], n, j - 1);
    }
  }

  /** Without a sort name, or with one no header cell matches, nothing moves. */
  lemma SortRowsUnchanged(rows: seq<Line>, sort: Option<string>)
    requires sort.None? || (rows != [] && SortColumn(rows[0], sort.value) == |rows[0]|)
    ensures SortRows(rows, sort) == Ok(rows)
  {
  }

  /** With a matching sort name the header stays first, the data lines are the
      same lines ordered on the chosen column, and lines with equal keys keep
      their order. */
  lemma SortRowsSorts(rows: seq<Line>, name: string)
    requires rows != [] && SortColumn(rows[0], name) < |rows[0]|
    ensures var c := SortColumn(rows[0], name);
      SortRows(rows, Some(name)).Ok? <==> forall i | 1 <= i < |rows| :: c < |rows[i]|
    ensures var c := SortColumn(rows[0], name);
      SortRows(rows, Some(name)).Ok? ==>
        var out := SortRows(rows, Some(name)).value;
        && |out| == |rows| && out[0] == rows[0]
        && multiset(out[1..]) == multiset(rows[1..])
        && SortedOn(out[1..], c)
        && forall v :: Filter(out[1..], KeyIs(c, v)) == Filter(rows[1..], KeyIs(c, v))
  {
    var c := SortColumn(rows[0], name);
    if SortRows(rows, Some(name)).Ok? {
      var out := SortRows(rows, Some(name)).value;
      assert out[1..] == SortOn(rows[1..], c);
      SortOnSorted(rows[1..], c);
      forall v
        ensures Filter(out[1..], KeyIs(c, v)) == Filter(rows[1..], KeyIs(c, v))
      {
        SortOnStable(rows[1..], c, v);
      }
    }
  }

  // ---------------------------------------------------------------------------
  // get_achievement_type and get_achievement_state

  /** The label for the two flags: "Inc" when incremental, then "Sec" or
      "Nor", joined by "/". */
  function TypeLabel(incremental: bool, secret: bool): (t: string)
    ensures t == "Inc/Sec" <==> incremental && secret
    ensures t == "Inc/Nor" <==> incremental && !secret
    ensures t == "Sec" <==> !incremental && secret
    ensures t == "Nor" <==> !incremental && !secret
  {
    var kind := if secret then "Sec" else "Nor";
    var types := (if incremental then ["Inc"] else []) + [kind];
    assert Join([kind], "/") == kind;
    assert incremental ==> Join(types, "/") == "Inc" + "/" + kind;
    assert "Inc" + "/" + "Sec" == "Inc/Sec" && "Inc" + "/" + "Nor" == "Inc/Nor";
    Join(types, "/")
  }

  /** `get_achievement_type`. */
  function AchievementType(d: Record): (t: string)
    ensures t in {"Inc/Sec", "Inc/Nor", "Sec", "Nor"}
    ensures IsIncremental(d) <==> t in {"Inc/Sec", "Inc/Nor"}
  {
    TypeLabel(IsIncremental(d), IsSecret(d))
  }

  /** Each of the four labels names one combination of the definition's
      incremental and secret flags. */
  lemma TypeLabels(d: Record)
    ensures AchievementType(d) == "Inc/Sec" <==> IsIncremental(d) && IsSecret(d)
    ensures AchievementType(d) == "Inc/Nor" <==> IsIncremental(d) && !IsSecret(d)
    ensures AchievementType(d) == "Sec" <==> !IsIncremental(d) && IsSecret(d)
    ensures AchievementType(d) == "Nor" <==> !IsIncremental(d) && !IsSecret(d)
  {
  }

  /** `get_achievement_state`: "UNLOCKED", the "current/total" steps of an
      incremental achievement, or "LOCKED". */
  function AchievementState(d: Record, i: Record): (t: string)
    ensures !IsUnlocked(i) && IsIncremental(d) ==>
      t == Str(Get(i, "current_steps")) + "/" + Str(Get(d, "total_steps"))
  {
    if IsUnlocked(i) then "UNLOCKED"
    else if IsIncremental(d) then Str(Get(i, "current_steps")) + "/" + Str(Get(d, "total_steps"))
    else "LOCKED"
  }

  /** The three labels cannot be mistaken for one another: the text tells
      whether the instance is unlocked, and if not whether the definition is
      incremental. */
  lemma StateLabels(d: Record, i: Record)
    ensures AchievementState(d, i) == "UNLOCKED" <==> IsUnlocked(i)
    ensures AchievementState(d, i) == "LOCKED" <==> !IsUnlocked(i) && !IsIncremental(d)
    ensures '/' in AchievementState(d, i) <==> !IsUnlocked(i) && IsIncremental(d)
  {
    var t := AchievementState(d, i);
    if !IsUnlocked(i) && IsIncremental(d) {
      var cur := Str(Get(i, "current_steps"));
      assert t[|cur|] == '/';
      assert "UNLOCKED"[5] != '/';
    }
  }

  // ---------------------------------------------------------------------------
  // table: the "nothing found" placeholder

  /** A line of dashes as wide as each header cell. */
  function Dashes(header: Line): (r: Line)
    ensures |r| == |header|
    ensures forall j | 0 <= j < |r| :: |r[j]| == |header[j]| && forall k | 0 <= k < |r[j]| :: r[j][k] == '-'
  {
    seq(|header|, j requires 0 <= j < |header| => seq(|header[j]|, _ => '-'))
  }

  /** The lines `table` draws: header-only data gains a line of dashes. */
  function WithPlaceholder(data: seq<Line>): (r: seq<Line>)
    ensures data <= r
    ensures |data| != 1 ==> r == data
    ensures |data| == 1 ==> |r| == 2 && |r[1]| == |data[0]|
  {
    if |data| == 1 then data + [Dashes(data[0])] else data
  }

  /** The title `table` prints: a non-empty title over header-only data is
      marked " (NOTHING FOUND)". */
  function Heading(data: seq<Line>, title: Option<string>): (r: Option<string>)
    ensures r.None? <==> title.None?
    ensures |data| != 1 ==> r == title
    ensures r != title ==> title.Some? && title.value != "" && IsSuffix(" (NOTHING FOUND)", r.value)
  {
    if |data| == 1 && title.Some? && title.value != "" then Some(title.value + " (NOTHING FOUND)") else title
  }

  /** The placeholder is added at most once, and never to a table that has
      data lines; the header keeps its place. */
  lemma PlaceholderOnce(data: seq<Line>)
    ensures WithPlaceholder(WithPlaceholder(data)) == WithPlaceholder(data)
    ensures |data| != 1 ==> WithPlaceholder(data) == data
    ensures |data| == 1 ==> |WithPlaceholder(data)| == 2 && WithPlaceholder(data)[0] == data[0]
    ensures |data| == 1 ==> Heading(WithPlaceholder(data), Some("x")) == Some("x")
  {
  }

  /** The list `table` receives, which it extends in place. */
  class TableData {
    var lines: seq<Line>

    constructor (lines: seq<Line>)
      ensures this.lines == lines
    {
      this.lines := lines;
    }

    /** The part of `table(data, title)` before drawing: the caller's list
      gains the dash line when it holds only the header, and the title to
      print is returned. */
    method Placeholder(title: Option<string>) returns (heading: Option<string>)
      modifies this
      ensures lines == WithPlaceholder(old(lines))
      ensures heading == Heading(old(lines), title)
    {
      heading := title;
      if |lines| == 1 {
        if title.Some? && title.value != "" {
          heading := Some(title.value + " (NOTHING FOUND)");
        }
        lines := lines + [Dashes(lines[0])];
      }
    }
  }

  // ---------------------------------------------------------------------------
  // show_all_games: the not-100% filter

  /** An instance entry that counts as unlocked; a missing instance does not. */
  predicate UnlockedEntry(x: Option<Record>)
  {
    x.Some? && IsUnlocked(x.value)
  }

  /** `len([x for x in ach_insts if x and x.is_unlocked()])`. */
  function UnlockedCount(insts: seq<Option<Record>>): (n: nat)
    ensures n <= |insts|
  {
    |Filter(insts, UnlockedEntry)|
  }

  /** The test `not ach_defs or len(uachs) == len(ach_insts)`: a game with no
      achievements, or with every entry of its instance list unlocked. */
  predicate Complete(defs: seq<Record>, insts: seq<Option<Record>>)
  {
    defs == [] || UnlockedCount(insts) == |insts|
  }

  lemma {:induction false} FilterKeepsAll<T(!new)>(s: seq<T>, p: T -> bool)
    ensures |Filter(s, p)| == |s| <==> forall x <- s :: p(x)
    decreases |s|
  {
    if s != [] {
      FilterKeepsAll(s[1..], p);
      if !p(s[0]) {
        assert s[0] in s;
      }
      if forall x <- s[1..] :: p(x) {
        if p(s[0]) {
          forall x <- s
            ensures p(x)
          {
            if x != s[0] {
              assert x in s[1..];
            }
          }
        }
      } else {
        var y :| y in s[1..] && !p(y);
        assert y in s;
      }
    }
  }

  /** A game is left out of the not-100% listing exactly when it has no
      achievements or every entry is an unlocked instance; a definition without
      an instance keeps the game listed. */
  lemma IncompleteMeaning(defs: seq<Record>, insts: seq<Option<Record>>)
    ensures !Complete(defs, insts) <==>
      defs != [] && exists j | 0 <= j < |insts| :: insts[j].None? || !IsUnlocked(insts[j].value)
    ensures !Complete(defs, insts) ==> UnlockedCount(insts) < |insts|
  {
    FilterKeepsAll(insts, UnlockedEntry);
    if exists j | 0 <= j < |insts| :: insts[j].None? || !IsUnlocked(insts[j].value) {
      var j :| 0 <= j < |insts| && (insts[j].None? || !IsUnlocked(insts[j].value));
      assert insts[j] in insts && !UnlockedEntry(insts[j]);
    }
  }

  /** Every definition of the game is an achievement-definition record. */
  lemma DefinitionsKind(db: Db, game: Record)
    requires game.kind == Games
    ensures forall d <- AchDefsByGame(db, game) :: d.kind == AchievementDefinitions
  {
    forall d <- AchDefsByGame(db, game)
      ensures d.kind == AchievementDefinitions
    {
      RecordsKind(db, AchievementDefinitions, d);
    }
  }

  /** The header of the "All Games" table. */
  const ALL_GAMES_HEADER: Line := ["Game ID", "Package Name", "Name", "Unlocked", "Achievements", "In CC"]

  /** One pass of the `show_all_games` loop: None when the game is skipped
      (no display name and no installed instance, or complete while only
      incomplete games are asked for), else its line. A missing display name
      is replaced by the instance's package name. */
  function AllGamesLine(db: Db, game: Record, not100: bool): (r: Option<Line>)
    requires game.kind == Games
    ensures r.Some? ==> |r.value| == |ALL_GAMES_HEADER|
    ensures !Truthy(Get(game, "display_name")) && GameInstByGame(db, game).None? ==> r.None?
    ensures r.None? && !not100 ==> !Truthy(Get(game, "display_name")) && GameInstByGame(db, game).None?
  {
    var inst := GameInstByGame(db, game);
    if !Truthy(Get(game, "display_name")) && inst.None? then None
    else
      var name := if Truthy(Get(game, "display_name")) then Get(game, "display_name") else Get(inst.value, "package_name");
      var defs := AchDefsByGame(db, game);
      DefinitionsKind(db, game);
      var insts := AchInstsByAchDefs(db, defs);
      if not100 && Complete(defs, insts) then None
      else
        var cc := if inst.Some? then (RecordsKind(db, GameInstances, inst.value); ClientContextByGameInst(db, inst.value)) else None;
        Some([Str(Get(game, "_id")),
              if inst.None? then "NO_INSTANCE" else Str(Get(inst.value, "package_name")),
              Str(name), NatToString(UnlockedCount(insts)), NatToString(|insts|),
              if cc.Some? then "Yes" else "No"])
  }

  /** `--all-games-n` lists exactly the games `--all-games` lists that are not
      complete. */
  lemma NotCompleteFilter(db: Db, game: Record)
    requires game.kind == Games
    ensures AllGamesLine(db, game, true).Some? <==>
      && AllGamesLine(db, game, false).Some?
      && (DefinitionsKind(db, game);
          !Complete(AchDefsByGame(db, game), AchInstsByAchDefs(db, AchDefsByGame(db, game))))
    ensures AllGamesLine(db, game, true).Some? ==> AllGamesLine(db, game, true) == AllGamesLine(db, game, false)
  {
  }

  /** The pass of the loop for one game record. */
  function LineOf(db: Db, not100: bool): Record -> Option<Line>
  {
    (g: Record) => if g.kind == Games then AllGamesLine(db, g, not100) else None
  }

  /** The lines a loop over `gs` produces, in order, one for each record the
      step does not skip. */
  function Collect(gs: seq<Record>, step: Record -> Option<Line>): (r: seq<Line>)
    ensures |r| <= |gs|
    decreases |gs|
  {
    if gs == [] then []
    else
      var prev := Collect(gs[..|gs| - 1], step);
      var line := step(gs[|gs| - 1]);
      if line.Some? then prev + [line.value] else prev
  }

  /** Every collected line is the line of some record, and a record's line is
      collected when it is not skipped. */
  lemma {:induction false} CollectMembers(gs: seq<Record>, step: Record -> Option<Line>)
    ensures forall l <- Collect(gs, step) :: exists g <- gs :: step(g) == Some(l)
    ensures forall g <- gs :: step(g).Some? ==> step(g).value in Collect(gs, step)
    decreases |gs|
  {
    if gs != [] {
      var init := gs[..|gs| - 1];
      CollectMembers(init, step);
      assert gs == init + [gs[|gs| - 1]];
      forall g <- gs | step(g).Some?
        ensures step(g).value in Collect(gs, step)
      {
        if g != gs[|gs| - 1] {
          assert g in init;
        }
      }
    }
  }

  /** The loop of `show_all_games`, one pass per game: the lines of the games
      not skipped, in table order. */
  method CollectLines(gs: seq<Record>, step: Record -> Option<Line>) returns (lines: seq<Line>)
    ensures lines == Collect(gs, step)
  {
    lines := [];
    var i := 0;
    while i < |gs|
      invariant 0 <= i <= |gs|
      invariant lines == Collect(gs[..i], step)
    {
      assert gs[..i + 1][..i] == gs[..i];
      var line := step(gs[i]);
      if line.Some? {
        lines := lines + [line.value];
      }
      i := i + 1;
    }
    assert gs[..i] == gs;
  }

  /** `show_all_games(not_100)` up to drawing: the header, then the line of
      every game that is not skipped. */
  method AllGames(db: Db, not100: bool) returns (rows: seq<Line>)
    ensures rows == [ALL_GAMES_HEADER] + Collect(Records(db, Games), LineOf(db, not100))
  {
    var lines := CollectLines(Records(db, Games), LineOf(db, not100));
    rows := [ALL_GAMES_HEADER] + lines;
  }

  /** Every line of the not-100% listing is the full listing's line of a game
      that is not complete. */
  lemma AllGamesNotComplete(db: Db)
    ensures forall l <- Collect(Records(db, Games), LineOf(db, true)) ::
      exists g <- Records(db, Games) ::
        (&& g.kind == Games && AllGamesLine(db, g, false) == Some(l)
         && (DefinitionsKind(db, g);
             !Complete(AchDefsByGame(db, g), AchInstsByAchDefs(db, AchDefsByGame(db, g)))))
  {
    CollectMembers(Records(db, Games), LineOf(db, true));
    forall l <- Collect(Records(db, Games), LineOf(db, true))
      ensures exists g <- Records(db, Games) ::
        (&& g.kind == Games && AllGamesLine(db, g, false) == Some(l)
         && (DefinitionsKind(db, g);
             !Complete(AchDefsByGame(db, g), AchInstsByAchDefs(db, AchDefsByGame(db, g)))))
    {
      var g :| g in Records(db, Games) && LineOf(db, true)(g) == Some(l);
      RecordsKind(db, Games, g);
      NotCompleteFilter(db, g);
    }
  }

  /** The title of the listing. */
  function AllGamesTitle(not100: bool): string
  {
    if not100 then "All Games (NOT 100% Completed)" else "All Games"
  }

  // ---------------------------------------------------------------------------
  // find_game

  /** `find_game(name, use_game_id)`. A digit string is a game id (through the
      game instance) when `useGameId`, else a client-context id whose package
      name is looked up again; any other text is a package name. A missing hop
      gives None; a name that is not text has no `isdigit` and raises.
      `depth` is the number of calls Python's recursion limit still allows. */
  function FindGame(db: Db, name: Value, useGameId: bool, depth: nat): (r: Result<Option<Record>>)
    ensures !r.Abort?
    ensures r.Ok? && r.value.Some? ==> r.value.value in Records(db, Games)
    decreases depth
  {
    if depth == 0 then Crash("RecursionError: maximum recursion depth exceeded")
    else if !name.VStr? then Crash("AttributeError: object has no attribute 'isdigit'")
    else if IsDigitString(name.s) && !useGameId then
      var cc := ClientContextById(db, name);
      if cc.None? then Ok(None)
      else FindGame(db, Get(cc.value, "package_name"), false, depth - 1)
    else
      var gi := if IsDigitString(name.s) then GameInstByGameId(db, name) else GameInstByPackageName(db, name);
      if gi.None? then Ok(None)
      else
        RecordsKind(db, GameInstances, gi.value);
        Ok(GameByGameInst(db, gi.value))
  }

  /** A game found by package name is the game of the first game instance
      with that package name; no such instance means no game. */
  lemma FindGameByPackage(db: Db, name: string, useGameId: bool, depth: nat)
    requires depth > 0 && !IsDigitString(name)
    ensures var r := FindGame(db, VStr(name), useGameId, depth);
      && r.Ok?
      && ((forall gi <- Records(db, GameInstances) :: !SqlEquals(Get(gi, "package_name"), name)) ==> r.value.None?)
      && (r.value.Some? ==>
            exists gi <- Records(db, GameInstances) ::
              && SqlEquals(Get(gi, "package_name"), name)
              && SqlEquals(Get(r.value.value, "_id"), Str(Get(gi, "instance_game_id"))))
  {
    var gi := GameInstByPackageName(db, VStr(name));
    if gi.Some? {
      assert gi.value in Records(db, GameInstances);
    }
  }

  /** With `useGameId` a digit string is a game id: the game is the one the
      first game instance with that `instance_game_id` points to. */
  lemma FindGameByGameId(db: Db, name: string, depth: nat)
    requires depth > 0 && IsDigitString(name)
    ensures var r := FindGame(db, VStr(name), true, depth);
      && r.Ok?
      && ((forall gi <- Records(db, GameInstances) :: !SqlEquals(Get(gi, "instance_game_id"), name)) ==> r.value.None?)
      && (r.value.Some? ==>
            exists gi <- Records(db, GameInstances) ::
              && SqlEquals(Get(gi, "instance_game_id"), name)
              && SqlEquals(Get(r.value.value, "_id"), Str(Get(gi, "instance_game_id"))))
  {
    var gi := GameInstByGameId(db, VStr(name));
    if gi.Some? {
      assert gi.value in Records(db, GameInstances);
    }
  }

  /** A digit string without `useGameId` is a client-context id: with no such
      context there is no game, otherwise the search starts again from that
      context's package name. */
  lemma FindGameByContext(db: Db, name: string, depth: nat)
    requires depth > 0 && IsDigitString(name)
    ensures (forall cc <- Records(db, ClientContexts) :: !SqlEquals(Get(cc, "_id"), name)) ==>
      FindGame(db, VStr(name), false, depth) == Ok(None)
    ensures ClientContextById(db, VStr(name)).Some? ==>
      && ClientContextById(db, VStr(name)).value in Records(db, ClientContexts)
      && SqlEquals(Get(ClientContextById(db, VStr(name)).value, "_id"), name)
      && FindGame(db, VStr(name), false, depth) ==
           FindGame(db, Get(ClientContextById(db, VStr(name)).value, "package_name"), false, depth - 1)
  {
  }

  // ---------------------------------------------------------------------------
  // main, unlock_ach, unlock_achs and unlock_all_achs

  /** The `Dummy` object `main` hands the unlocker, as written: it has neither a
      `quiet` nor a `player_id` attribute (the player option lands in
      `player`, which the unlocker never reads). */
  function SessionArgsAsWritten(): (a: Args)
    ensures a.quiet.None? && a.playerId.None?
  {
    Args(None, false, None, VNone, VNone)
  }

  /** The same object with the attributes the unlocker reads: not quiet and no
      player override, so the first player is used. */
  function SessionArgs(): (a: Args)
    ensures a.quiet == Some(false) && a.playerId.Some? && !Truthy(a.playerId.value)
  {
    Args(Some(false), false, Some(VNone), VNone, VNone)
  }

  /** As written, every unlock whose lookups succeed ends in AttributeError on
      `quiet` before anything is queued; with the attributes present the same
      call queues a row whenever the instance is not NULL, the client context
      exists and a player is found. */
  lemma SessionArgsQuiet(db: Db, answers: seq<Option<int>>, d: Record)
    requires PendingValid(db.pendingOps) && d.kind == AchievementDefinitions
    requires Resolve(db, d).Ok?
    ensures Unlock(db, SessionArgsAsWritten().(autoIncAchs := true), answers, Some(d)).Crash?
    ensures var links := Resolve(db, d).value;
      && links.cc.Some? && Get(links.inst, "state") != VNone
      && Records(db, Players) != []
      && (!IsIncremental(d) || (Get(d, "total_steps").VInt? && Get(links.inst, "current_steps").VInt?))
      ==> Unlock(db, SessionArgs().(autoIncAchs := true), answers, Some(d)).Ok?
  {
  }

  /** `main`'s unlocker over the opened file. */
  method NewSession(file: DbFile) returns (g: Gpau)
    ensures g.args == SessionArgs() && g.file == file
  {
    g := new Gpau(SessionArgs(), file);
  }

  /** The database after one unlock: a queued row is appended. */
  function After(db: Db, u: Unlocked): Db
  {
    if u.Queued? then db.(pendingOps := db.pendingOps + [u.row]) else db
  }

  /** Where a run of unlocks stands: the outcome of each call made so far and
      the database it left. */
  datatype Run = Run(outcomes: seq<Result<Unlocked>>, db: Db)

  /** The process stopped: the last call ended in a fatal error or a crash. */
  predicate Stopped(run: Run)
  {
    |run.outcomes| > 0 && !run.outcomes[|run.outcomes| - 1].Ok?
  }

  /** How one call of a run turns a definition into an outcome. */
  type Step = (Db, Option<Record>) -> Result<Unlocked>

  /** `unlock_ach`'s call for a session with arguments `args`. Runs start
      from a valid queue and keep it valid (BatchKeepsValid), so the crash
      branch, there only to make the step total, is never taken by one. */
  function UnlockStep(args: Args): (step: Step)
    ensures forall db: Db, d: Option<Record> | PendingValid(db.pendingOps) && (d.Some? ==> d.value.kind == AchievementDefinitions) ::
      step(db, d) == Unlock(db, args, [], d)
  {
    (db: Db, d: Option<Record>) =>
      if PendingValid(db.pendingOps) && (d.Some? ==> d.value.kind == AchievementDefinitions)
      then Unlock(db, args, [], d)
      else Crash("invalid pending operations")
  }

  /** Making the calls of `step` on the definitions `ds` one after another
      until a call fails, which ends the process. */
  function Batch(db: Db, step: Step, ds: seq<Option<Record>>): (r: Run)
    ensures r.db == db.(pendingOps := r.db.pendingOps)
    ensures |r.outcomes| <= |ds|
    decreases |ds|
  {
    if ds == [] then Run([], db)
    else
      var prev := Batch(db, step, ds[..|ds| - 1]);
      if Stopped(prev) then prev
      else
        var o := step(prev.db, ds[|ds| - 1]);
        Run(prev.outcomes + [o], if o.Ok? then After(prev.db, o.value) else prev.db)
  }

  /** One more call of a run that has not stopped. */
  lemma BatchStep(db: Db, step: Step, ds: seq<Option<Record>>, i: nat)
    requires i < |ds| && !Stopped(Batch(db, step, ds[..i]))
    ensures var prev := Batch(db, step, ds[..i]);
      var o := step(prev.db, ds[i]);
      Batch(db, step, ds[..i + 1]) == Run(prev.outcomes + [o], if o.Ok? then After(prev.db, o.value) else prev.db)
  {
    assert ds[..i + 1][..i] == ds[..i];
    assert ds[..i + 1][i] == ds[i];
  }

  /** Once a run has stopped, later ids change nothing. */
  lemma {:induction false} BatchStays(db: Db, step: Step, ds: seq<Option<Record>>, i: nat)
    requires i <= |ds| && Stopped(Batch(db, step, ds[..i]))
    ensures Batch(db, step, ds) == Batch(db, step, ds[..i])
    decreases |ds|
  {
    if i < |ds| {
      var init := ds[..|ds| - 1];
      assert init[..i] == ds[..i];
      BatchStays(db, step, init, i);
    } else {
      assert ds[..i] == ds;
    }
  }

  /** Unlocking keeps the queue's ids distinct and ascending. */
  lemma {:induction false} BatchKeepsValid(db: Db, args: Args, ds: seq<Option<Record>>)
    requires PendingValid(db.pendingOps)
    requires forall d <- ds :: d.Some? ==> d.value.kind == AchievementDefinitions
    ensures PendingValid(Batch(db, UnlockStep(args), ds).db.pendingOps)
    decreases |ds|
  {
    if ds != [] {
      var n := |ds| - 1;
      var init := ds[..n];
      BatchKeepsValid(db, args, init);
      var prev := Batch(db, UnlockStep(args), init);
      if !Stopped(prev) {
        BatchStep(db, UnlockStep(args), ds, n);
        assert ds[..n + 1] == ds;
        var o := Unlock(prev.db, args, [], ds[n]);
        assert UnlockStep(args)(prev.db, ds[n]) == o;
        if o.Ok? && o.value.Queued? {
          QueuedKeepsValid(prev.db, args, [], ds[n]);
        }
      }
    }
  }

  /** The rows a run queued, in order. */
  function QueuedRows(outcomes: seq<Result<Unlocked>>): seq<Row>
  {
    if outcomes == [] then []
    else
      var last := outcomes[|outcomes| - 1];
      QueuedRows(outcomes[..|outcomes| - 1]) + (if last.Ok? && last.value.Queued? then [last.value.row] else [])
  }

  /** A run only appends: the rows it queued follow the rows that were there. */
  lemma {:induction false} BatchAppends(db: Db, step: Step, ds: seq<Option<Record>>)
    ensures Batch(db, step, ds).db.pendingOps == db.pendingOps + QueuedRows(Batch(db, step, ds).outcomes)
    decreases |ds|
  {
    if ds != [] {
      var n := |ds| - 1;
      var init := ds[..n];
      BatchAppends(db, step, init);
      var prev := Batch(db, step, init);
      if !Stopped(prev) {
        BatchStep(db, step, ds, n);
        assert ds[..n + 1] == ds;
        var o := step(prev.db, ds[n]);
        var outs := prev.outcomes + [o];
        assert outs[..|outs| - 1] == prev.outcomes;
      }
    }
  }

  /** A run goes on while its calls succeed: every call but the last
      succeeded, and a run that made fewer calls than there are ids stopped. */
  lemma {:induction false} BatchStopsAtFailure(db: Db, step: Step, ds: seq<Option<Record>>)
    ensures forall i | 0 <= i < |Batch(db, step, ds).outcomes| - 1 :: Batch(db, step, ds).outcomes[i].Ok?
    ensures |Batch(db, step, ds).outcomes| < |ds| ==> Stopped(Batch(db, step, ds))
    decreases |ds|
  {
    if ds != [] {
      var n := |ds| - 1;
      var init := ds[..n];
      BatchStopsAtFailure(db, step, init);
      var prev := Batch(db, step, init);
      if !Stopped(prev) {
        BatchStep(db, step, ds, n);
        assert ds[..n + 1] == ds;
      }
    }
  }

  /** The lookups read only the definition tables, which unlocking never
      changes. */
  lemma LookupIgnoresQueue(db: Db, rows: seq<Row>, x: Value)
    ensures AchDefByExternalId(db.(pendingOps := rows), x) == AchDefByExternalId(db, x)
  {
    assert Records(db.(pendingOps := rows), AchievementDefinitions) == Records(db, AchievementDefinitions);
  }

  /** The definitions the given external ids name, one lookup each. */
  function Named(db: Db, ids: seq<string>): (ds: seq<Option<Record>>)
    ensures |ds| == |ids|
    ensures forall d <- ds :: d.Some? ==> d.value.kind == AchievementDefinitions
  {
    var ds := seq(|ids|, i requires 0 <= i < |ids| => AchDefByExternalId(db, VStr(ids[i])));
    forall d <- ds | d.Some?
      ensures d.value.kind == AchievementDefinitions
    {
      RecordsKind(db, AchievementDefinitions, d.value);
    }
    ds
  }

  /** `unlock_ach(g, id)`: auto-increment is switched on, then the definition
      with that external id is unlocked; an unknown id only warns and queues
      nothing. */
  method UnlockAch(g: Gpau, externalId: string) returns (res: Result<Unlocked>)
    requires g.file.Valid()
    modifies g, g.file
    ensures g.file.Valid()
    ensures g.args == old(g.args).(autoIncAchs := true)
    ensures res == Unlock(old(g.file.db), g.args, [], AchDefByExternalId(old(g.file.db), VStr(externalId)))
    ensures g.file.db == (if res.Ok? then After(old(g.file.db), res.value) else old(g.file.db))
  {
    g.args := g.args.(autoIncAchs := true);
    var def := AchDefByExternalId(g.file.db, VStr(externalId));
    if def.None? {
      return Ok(NotGiven);
    }
    RecordsKind(g.file.db, AchievementDefinitions, def.value);
    res := g.UnlockAchievement([], def);
  }

  /** `unlock_achs(g, ids)`: `unlock_ach` for each id in turn; a fatal error or
      a crash ends the process, and with it the loop. */
  method UnlockAchs(g: Gpau, ids: seq<string>) returns (run: Run)
    requires g.file.Valid()
    modifies g, g.file
    ensures g.file.Valid()
    ensures ids != [] ==> g.args == old(g.args).(autoIncAchs := true)
    ensures run == Batch(old(g.file.db), UnlockStep(old(g.args).(autoIncAchs := true)), Named(old(g.file.db), ids))
    ensures g.file.db == run.db
  {
    ghost var db0 := g.file.db;
    ghost var args := old(g.args).(autoIncAchs := true);
    ghost var ds := Named(db0, ids);
    run := Run([], g.file.db);
    var i := 0;
    while i < |ids|
      invariant 0 <= i <= |ids|
      invariant g.file.Valid()
      invariant i > 0 ==> g.args == args
      invariant i == 0 ==> g.args == old(g.args)
      invariant run == Batch(db0, UnlockStep(args), ds[..i])
      invariant g.file.db == run.db
      invariant !Stopped(run)
    {
      run := UnlockNext(g, db0, args, ids, i, run);
      i := i + 1;
      if Stopped(run) {
        BatchStays(db0, UnlockStep(args), ds, i);
        return;
      }
    }
    assert ds[..i] == ds;
  }

  /** One pass of the `unlock_achs` loop: `unlock_ach` on the `i`-th id. */
  method UnlockNext(g: Gpau, ghost db0: Db, ghost args: Args, ids: seq<string>, i: nat, run: Run)
    returns (next: Run)
    requires g.file.Valid() && PendingValid(db0.pendingOps)
    requires i < |ids| && args.autoIncAchs
    requires g.args == args || g.args == args.(autoIncAchs := false)
    requires run == Batch(db0, UnlockStep(args), Named(db0, ids)[..i]) && !Stopped(run) && g.file.db == run.db
    modifies g, g.file
    ensures g.file.Valid() && g.args == args
    ensures next == Batch(db0, UnlockStep(args), Named(db0, ids)[..i + 1]) && g.file.db == next.db
  {
    ghost var ds := Named(db0, ids);
    BatchStep(db0, UnlockStep(args), ds, i);
    LookupIgnoresQueue(db0, g.file.db.pendingOps, VStr(ids[i]));
    assert ds[i] == AchDefByExternalId(g.file.db, VStr(ids[i]));
    assert ds[i] in ds;
    assert UnlockStep(args)(g.file.db, ds[i]) == Unlock(g.file.db, args, [], ds[i]);
    var o := UnlockAch(g, ids[i]);
    next := Run(run.outcomes + [o], g.file.db);
  }

  /** `[x for x in defs if x]` as the loop's items: every definition, in
      order. */
  function Present(defs: seq<Record>): (ds: seq<Option<Record>>)
    ensures |ds| == |defs|
    ensures forall i | 0 <= i < |ds| :: ds[i] == Some(defs[i])
  {
    seq(|defs|, i requires 0 <= i < |defs| => Some(defs[i]))
  }

  /** `unlock_all_achs(g, ccid)`: auto-increment is switched on, the game is
      found from a package name or client context id, and each of its
      definitions is unlocked in turn; no game is a fatal error, and a
      failing unlock ends the process. `depth` is the recursion depth
      `find_game` may still use. */
  method UnlockAllAchs(g: Gpau, ccid: string, depth: nat) returns (res: Result<Run>)
    requires g.file.Valid()
    modifies g, g.file
    ensures g.file.Valid() && g.args == old(g.args).(autoIncAchs := true)
    ensures FindGame(old(g.file.db), VStr(ccid), false, depth).Crash? ==>
      res == Crash(FindGame(old(g.file.db), VStr(ccid), false, depth).reason) && g.file.db == old(g.file.db)
    ensures FindGame(old(g.file.db), VStr(ccid), false, depth) == Ok(None) ==>
      res.Abort? && g.file.db == old(g.file.db)
    ensures var found := FindGame(old(g.file.db), VStr(ccid), false, depth);
      found.Ok? && found.value.Some? ==>
        res == Ok(Batch(old(g.file.db), UnlockStep(g.args), Present(AchDefsByGame(old(g.file.db), found.value.value))))
        && g.file.db == res.value.db
  {
    g.args := g.args.(autoIncAchs := true);
    var found := FindGame(g.file.db, VStr(ccid), false, depth);
    if found.Crash? {
      return Crash(found.reason);
    }
    if found.value.None? {
      return Abort("Game with Package Name or CC ID '" + ccid + "' not found");
    }
    RecordsKind(g.file.db, Games, found.value.value);
    var defs := AchDefsByGame(g.file.db, found.value.value);
    DefinitionsKind(g.file.db, found.value.value);
    var ds := Present(defs);
    assert forall d <- ds :: d.Some? && d.value in defs;
    var run := UnlockEach(g, ds);
    res := Ok(run);
  }

  /** `unlock_achievement` on each of `ds` in turn, until one fails. */
  method UnlockEach(g: Gpau, ds: seq<Option<Record>>) returns (run: Run)
    requires g.file.Valid()
    requires forall d <- ds :: d.Some? ==> d.value.kind == AchievementDefinitions
    modifies g.file
    ensures g.file.Valid()
    ensures run == Batch(old(g.file.db), UnlockStep(g.args), ds) && g.file.db == run.db
  {
    ghost var db0 := g.file.db;
    run := Run([], g.file.db);
    for i := 0 to |ds|
      invariant g.file.Valid()
      invariant run == Batch(db0, UnlockStep(g.args), ds[..i]) && g.file.db == run.db
      invariant !Stopped(run)
    {
      run := UnlockOne(g, db0, ds, i, run);
      if Stopped(run) {
        BatchStays(db0, UnlockStep(g.args), ds, i + 1);
        return;
      }
    }
    assert ds[..|ds|] == ds;
  }

  /** One pass of the `unlock_all_achs` loop: `unlock_achievement` on the
      `i`-th definition. */
  method UnlockOne(g: Gpau, ghost db0: Db, ds: seq<Option<Record>>, i: nat, run: Run) returns (next: Run)
    requires g.file.Valid() && i < |ds|
    requires forall d <- ds :: d.Some? ==> d.value.kind == AchievementDefinitions
    requires run == Batch(db0, UnlockStep(g.args), ds[..i]) && !Stopped(run) && g.file.db == run.db
    modifies g.file
    ensures g.file.Valid()
    ensures next == Batch(db0, UnlockStep(g.args), ds[..i + 1]) && g.file.db == next.db
  {
    BatchStep(db0, UnlockStep(g.args), ds, i);
    assert ds[i] in ds;
    assert UnlockStep(g.args)(g.file.db, ds[i]) == Unlock(g.file.db, g.args, [], ds[i]);
    var o := g.UnlockAchievement([], ds[i]);
    next := Run(run.outcomes + [o], g.file.db);
  }

}
