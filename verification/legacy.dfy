/** db_objs.py: the older revision of the record classes, the table loader and
    the relationship finder. Records are kept in memory; every lookup is a
    case-insensitive substring search over `str()` of the values, and the
    constructors replace every falsy value by None. */
module Legacy {
  import opened Outcomes
  import opened Values
  import opened Seqs
  import opened Structure
  import opened Database

  /** The seven classes of this revision, in the loader's table order; pending
      operations and players have no class here. */
  const LEGACY_KINDS: seq<Kind> :=
    [AchievementDefinitions, AchievementInstances, ClientContexts, GameInstances,
     GamePlayerIds, Games, Images]

  predicate LegacyKind(k: Kind)
  {
    k != AchievementPendingOps && k != Players
  }

  // ---------------------------------------------------------------------------
  // Constructors

  /** `v or None`. */
  function Squash(v: Value): Value
  {
    if Truthy(v) then v else VNone
  }

  /** The constructor of class `k`: field `i` is `args[i] or None`. Slots are
      indexed directly, so a row shorter than the class raises IndexError;
      extra slots are ignored. */
  function LegacyDecode(k: Kind, args: seq<Value>): (r: Result<Record>)
    requires LegacyKind(k)
    ensures r.Ok? <==> |args| >= Arity(k)
    ensures !r.Ok? ==> r.Crash?
    ensures r.Ok? ==> r.value.kind == k && WellFormed(r.value)
    ensures r.Ok? ==> forall i | 0 <= i < Arity(k) ::
      (Truthy(args[i]) ==> r.value.fields[i] == args[i]) && (!Truthy(args[i]) ==> r.value.fields[i] == VNone)
  {
    if |args| < Arity(k) then Crash("IndexError: tuple index out of range")
    else Ok(Record(k, seq(Arity(k), i requires 0 <= i < Arity(k) => Squash(args[i])), []))
  }

  /** No field of a legacy record is falsy but None: a stored 0 or '' reads
      back as None. */
  lemma NoFalsyFields(k: Kind, args: seq<Value>)
    requires LegacyKind(k)
    requires LegacyDecode(k, args).Ok?
    ensures forall i | 0 <= i < Arity(k) ::
      LegacyDecode(k, args).value.fields[i] == VNone || Truthy(LegacyDecode(k, args).value.fields[i])
  {
  }

  /** On a row of truthy values long enough for the class the old and new
      constructors agree field for field. */
  lemma LegacyAgreesOnTruthyRows(k: Kind, args: seq<Value>)
    requires LegacyKind(k) && |args| >= Arity(k)
    requires forall i | 0 <= i < |args| :: Truthy(args[i])
    ensures LegacyDecode(k, args).Ok?
    ensures LegacyDecode(k, args).value.fields == Decode(k, args).fields
  {
  }

  /** An instance stored with state 0, the unlocked state, reads back with
      state None in this revision, where the current one keeps the 0. */
  lemma ZeroStateBecomesNone(args: seq<Value>)
    requires |args| >= Arity(AchievementInstances) && args[3] == VInt(0)
    ensures Get(LegacyDecode(AchievementInstances, args).value, "state") == VNone
    ensures Get(Decode(AchievementInstances, args), "state") == VInt(0)
  {
    IndexOfAt(FieldNames(AchievementInstances), "state", 3);
  }

  // ---------------------------------------------------------------------------
  // attrs / values

  /** The `attrs()` filter of this revision: only dunder names and
      `_changers` are dropped. */
  predicate LegacyListed(n: string)
  {
    !Dunder(n) && n != "_changers"
  }

  /** Keys of a fresh instance's `__dict__`: only the achievement instance
      sets `_changers` on the instance, before its fields. */
  function LegacyKeys(k: Kind): seq<string>
  {
    (if k == AchievementInstances then ["_changers"] else []) + FieldNames(k)
  }

  /** `attrs()`: exactly the fields in assignment order, the same list as the
      current revision's `attrs()`; `values()` therefore follows the field
      order too. */
  function LegacyAttrs(k: Kind): (r: seq<string>)
    requires LegacyKind(k)
    ensures r == FieldNames(k) && r == Attrs(k)
  {
    var bk := if k == AchievementInstances then ["_changers"] else [];
    FieldNamesListed(k);
    assert forall n <- FieldNames(k) :: LegacyListed(n) by {
      forall n <- FieldNames(k) ensures LegacyListed(n) {
        assert "_changers" in HIDDEN_ATTRS;
      }
    }
    FilterConcat(bk, FieldNames(k), LegacyListed);
    FilterAll(FieldNames(k), LegacyListed);
    assert Filter(bk, LegacyListed) == [];
    Filter(LegacyKeys(k), LegacyListed)
  }

  // ---------------------------------------------------------------------------
  // Loading

  /** `[cls(*x) for x in rows]`: the first short row raises. */
  function DecodeRows(k: Kind, rows: seq<seq<Value>>): (r: Result<seq<Record>>)
    requires LegacyKind(k)
    ensures !r.Abort?
    ensures r.Ok? <==> forall i | 0 <= i < |rows| :: |rows[i]| >= Arity(k)
    ensures r.Ok? ==> (
      && |r.value| == |rows|
      && forall i | 0 <= i < |rows| :: LegacyDecode(k, rows[i]) == Ok(r.value[i]))
  {
    if rows == [] then Ok([])
    else
      var h := LegacyDecode(k, rows[0]);
      if h.Crash? then Crash(h.reason)
      else
        var t := DecodeRows(k, rows[1..]);
        if t.Crash? then Crash(t.reason)
        else
          assert forall i | 1 <= i < |rows| :: rows[i] == rows[1..][i - 1];
          Ok([h.value] + t.value)
  }

  /** The records of one table, none when it was not loaded. */
  function Table(t: map<Kind, seq<Record>>, k: Kind): seq<Record>
  {
    if k in t then t[k] else []
  }

  /** `DbFile.__init__`: each table is read whole (`raw`, the query result) and
      decoded into the attribute named after it. */
  method Load(raw: Kind -> seq<seq<Value>>) returns (r: Result<map<Kind, seq<Record>>>)
    ensures !r.Abort?
    ensures r.Ok? <==> forall k <- LEGACY_KINDS :: DecodeRows(k, raw(k)).Ok?
    ensures r.Ok? ==> r.value.Keys == set k <- LEGACY_KINDS
    ensures r.Ok? ==> forall k <- LEGACY_KINDS :: Table(r.value, k) == DecodeRows(k, raw(k)).value
  {
    var tables: map<Kind, seq<Record>> := map[];
    for j := 0 to |LEGACY_KINDS|
      invariant tables.Keys == set k <- LEGACY_KINDS[..j]
      invariant forall k <- LEGACY_KINDS[..j] :: DecodeRows(k, raw(k)).Ok? && tables[k] == DecodeRows(k, raw(k)).value
    {
      var k := LEGACY_KINDS[j];
      assert LEGACY_KINDS[..j + 1] == LEGACY_KINDS[..j] + [k];
      var rows := DecodeRows(k, raw(k));
      if rows.Crash? {
        return Crash(rows.reason);
      }
      tables := tables[k := rows.value];
    }
    assert LEGACY_KINDS[..|LEGACY_KINDS|] == LEGACY_KINDS;
    return Ok(tables);
  }

  // ---------------------------------------------------------------------------
  // findby / find

  /** What the lookups return: None, a single object, or a list. */
  datatype Found = Nothing | One(rec: Record) | Many(recs: seq<Record>)

  /** `res[0] if len(res) and first else res`: a miss gives `[]` even when
      `first`. */
  function LegacyPick(rs: seq<Record>, first: bool): (f: Found)
    ensures f.One? <==> first && rs != []
    ensures f.One? ==> f.rec == rs[0]
    ensures f.Many? ==> f.recs == rs
    ensures !f.Nothing?
  {
    if |rs| > 0 && first then One(rs[0]) else Many(rs)
  }

  /** The object test of `findby` (some requested column that the object has
      contains the term) or, without columns, of `find` (some value does). */
  predicate LegacyHit(x: Record, cols: seq<string>, s: string)
  {
    if cols == [] then InstanceHit(x, s, false) else ByHit(x, cols, s, false)
  }

  function LegacyTest(cols: seq<string>, s: string): Record -> bool
  {
    x => LegacyHit(x, cols, s)
  }

  /** `find(search, objs, first)`. */
  function FindResult(search: Value, objs: seq<Record>, first: bool): (f: Found)
    ensures f == LegacyPick(Filter(objs, LegacyTest([], Lower(Str(search)))), first)
  {
    var p := LegacyTest([], Lower(Str(search)));
    FilterCongruent(objs, InstanceTest(Lower(Str(search)), false), p);
    LegacyPick(Filter(objs, InstanceTest(Lower(Str(search)), false)), first)
  }

  /** `findby(s, cols, objs, first)`: no objects gives None; otherwise the
      objects that hit, in order, picked as above. */
  function FindByResult(s: Value, cols: seq<string>, objs: seq<Record>, first: bool): (f: Found)
    ensures objs == [] <==> f.Nothing?
    ensures f.One? ==> first && Filter(objs, LegacyTest(cols, Lower(Str(s)))) != [] &&
                       f.rec == Filter(objs, LegacyTest(cols, Lower(Str(s))))[0]
    ensures f.Many? ==> f.recs == Filter(objs, LegacyTest(cols, Lower(Str(s))))
    ensures f.Many? && first ==> f.recs == []
  {
    if objs == [] then Nothing
    else if cols == [] then FindResult(s, objs, first)
    else
      FilterCongruent(objs, ByTest(cols, Lower(Str(s)), false), LegacyTest(cols, Lower(Str(s))));
      LegacyPick(Matching(objs, cols, Lower(Str(s)), false), first)
  }

  /** What `findby` returns, in terms of the objects: a single object is the
      first that hits; a list holds exactly the objects that hit, in order. */
  lemma FindByMeaning(s: Value, cols: seq<string>, objs: seq<Record>, first: bool)
    ensures var f := FindByResult(s, cols, objs, first);
      f.One? ==> f.rec in objs && LegacyHit(f.rec, cols, Lower(Str(s)))
    ensures var f := FindByResult(s, cols, objs, first);
      f.Many? ==> (
        && Subsequence(f.recs, objs)
        && forall x :: x in f.recs <==> x in objs && LegacyHit(x, cols, Lower(Str(s))))
    ensures var f := FindByResult(s, cols, objs, first);
      objs != [] && first ==> (f.One? <==> exists x <- objs :: LegacyHit(x, cols, Lower(Str(s))))
  {
    var p := LegacyTest(cols, Lower(Str(s)));
    FilterIsSubsequence(objs, p);
    var f := FindByResult(s, cols, objs, first);
    if f.One? {
      assert Filter(objs, p)[0] in Filter(objs, p);
    }
    if objs != [] && first && exists x <- objs :: LegacyHit(x, cols, Lower(Str(s))) {
      var x :| x in objs && LegacyHit(x, cols, Lower(Str(s)));
      assert x in Filter(objs, p);
    }
  }

  /** A non-empty list of objects none of which hits: `first` still gives
      `[]`. */
  lemma MissIsEmptyList(s: Value, cols: seq<string>, objs: seq<Record>)
    requires objs != [] && forall x <- objs :: !LegacyHit(x, cols, Lower(Str(s)))
    ensures FindByResult(s, cols, objs, true) == Many([])
  {
    assert Filter(objs, LegacyTest(cols, Lower(Str(s)))) == [];
  }

  /** `findby`: the loop over the objects. */
  method FindBy(s: Value, cols: seq<string>, objs: seq<Record>, first: bool) returns (f: Found)
    ensures f == FindByResult(s, cols, objs, first)
  {
    if objs == [] {
      return Nothing;
    }
    if cols == [] {
      return FindResult(s, objs, first);
    }
    var found := KeepWhere(objs, ByTest(cols, Lower(Str(s)), false));
    f := LegacyPick(found, first);
  }

  /** Where the two revisions part ways: on a list of objects, a miss with
      `first` is `[]` here and None in `search_instances_by`, and an empty
      list is None here and `[]` there. Hits agree. */
  lemma FindByAgainstSearchInstancesBy(s: Value, cols: seq<string>, objs: seq<Record>)
    requires cols != []
    ensures objs == [] ==> FindByResult(s, cols, objs, true) == Nothing
    ensures Matching(objs, cols, Lower(Str(s)), false) == [] && objs != [] ==>
      FindByResult(s, cols, objs, true) == Many([]) &&
      Pick(Matching(objs, cols, Lower(Str(s)), false), true) == First(None)
    ensures Matching(objs, cols, Lower(Str(s)), false) != [] ==>
      FindByResult(s, cols, objs, true) == One(Matching(objs, cols, Lower(Str(s)), false)[0]) &&
      Pick(Matching(objs, cols, Lower(Str(s)), false), true) == First(Some(Matching(objs, cols, Lower(Str(s)), false)[0]))
  {
    FilterCongruent(objs, ByTest(cols, Lower(Str(s)), false), LegacyTest(cols, Lower(Str(s))));
  }

  // ---------------------------------------------------------------------------
  // Finder

  /** One requested column: the object hits exactly when that column contains
      the term. */
  lemma SingleColumnHit(x: Record, col: string, s: string)
    requires col in Attrs(x.kind)
    ensures LegacyHit(x, [col], s) <==> Contains(s, Lower(Str(Get(x, col))))
  {
    if LegacyHit(x, [col], s) {
      var j :| 0 <= j < 1 && [col][j] in Attrs(x.kind) && TextHit(Get(x, [col][j]), s, false);
      assert j == 0;
    }
    if Contains(s, Lower(Str(Get(x, col)))) {
      assert [col][0] in Attrs(x.kind) && TextHit(Get(x, [col][0]), s, false);
    }
  }

  /** `<table>_by_id(x)`: the first record whose `_id` text contains `x`. */
  function ById(t: map<Kind, seq<Record>>, k: Kind, x: Value): (f: Found)
    ensures f.One? ==> f.rec in Table(t, k) && Contains(Lower(Str(x)), Lower(Str(Get(f.rec, "_id"))))
  {
    FindByMeaning(x, ["_id"], Table(t, k), true);
    var f := FindByResult(x, ["_id"], Table(t, k), true);
    if f.One? then
      IdFirst(f.rec.kind);
      SingleColumnHit(f.rec, "_id", Lower(Str(x)));
      f
    else f
  }

  /** `ach_def_by_ach_inst(x)`. */
  function AchDefByAchInst(t: map<Kind, seq<Record>>, x: Record): Found
  {
    FindByResult(Get(x, "definition_id"), ["_id"], Table(t, AchievementDefinitions), true)
  }

  /** `ach_defs_by_ach_insts(xs)`. */
  function AchDefsByAchInsts(t: map<Kind, seq<Record>>, xs: seq<Record>): (r: seq<Found>)
    ensures |r| == |xs| && forall i | 0 <= i < |xs| :: r[i] == AchDefByAchInst(t, xs[i])
  {
    Map(xs, x => AchDefByAchInst(t, x))
  }

  /** `game_by_ach_inst(x)` as written: the definition lookup answers `[]` on a
      miss, which `is not None`, so `udef.game_id` raises on the list. */
  function GameByAchInstAsWritten(t: map<Kind, seq<Record>>, x: Record): (r: Result<Found>)
    ensures r.Crash? <==> AchDefByAchInst(t, x).Many?
    ensures r.Ok? ==> r.value == GameByAchInst(t, x)
  {
    match AchDefByAchInst(t, x)
    case Nothing => Ok(Nothing)
    case One(d) => Ok(FindByResult(Get(d, "game_id"), ["_id"], Table(t, Games), true))
    case Many(_) => Crash("AttributeError: 'list' object has no attribute 'game_id'")
  }

  /** `game_by_ach_inst(x)` as intended: a missing definition gives None. */
  function GameByAchInst(t: map<Kind, seq<Record>>, x: Record): (f: Found)
    ensures AchDefByAchInst(t, x).One? ==>
      f == FindByResult(Get(AchDefByAchInst(t, x).rec, "game_id"), ["_id"], Table(t, Games), true)
    ensures !AchDefByAchInst(t, x).One? ==> f == Nothing
  {
    match AchDefByAchInst(t, x)
    case One(d) => FindByResult(Get(d, "game_id"), ["_id"], Table(t, Games), true)
    case _ => Nothing
  }

  /** A definitions table without a match for the instance: the code as
      written raises, the intended lookup gives None. */
  lemma GameByAchInstMiss(t: map<Kind, seq<Record>>, x: Record)
    requires Table(t, AchievementDefinitions) != []
    requires forall d <- Table(t, AchievementDefinitions) ::
      !Contains(Lower(Str(Get(x, "definition_id"))), Lower(Str(Get(d, "_id"))))
    ensures GameByAchInstAsWritten(t, x).Crash?
    ensures GameByAchInst(t, x) == Nothing
  {
    var s := Lower(Str(Get(x, "definition_id")));
    var defs := Table(t, AchievementDefinitions);
    forall d <- defs
      ensures !LegacyHit(d, ["_id"], s)
    {
      if "_id" in Attrs(d.kind) {
        SingleColumnHit(d, "_id", s);
      }
    }
    MissIsEmptyList(Get(x, "definition_id"), ["_id"], defs);
  }

  /** The two agree whenever the definition is found. */
  lemma GameByAchInstAgrees(t: map<Kind, seq<Record>>, x: Record)
    requires AchDefByAchInst(t, x).One? || AchDefByAchInst(t, x).Nothing?
    ensures GameByAchInstAsWritten(t, x) == Ok(GameByAchInst(t, x))
  {
  }

  /** `game_by_name(search, first)`: the games with any value containing the
      term. */
  function GameByName(t: map<Kind, seq<Record>>, search: Value, first: bool): Found
  {
    FindResult(search, Table(t, Games), first)
  }

  /** `ach_defs_by_game_id(x)`: every definition whose `game_id` text
      contains `x`, in table order; None only for an empty table. */
  function AchDefsByGameId(t: map<Kind, seq<Record>>, x: Value): (f: Found)
    ensures Table(t, AchievementDefinitions) == [] <==> f.Nothing?
    ensures !f.One?
  {
    FindByResult(x, ["game_id"], Table(t, AchievementDefinitions), false)
  }

  /** `ach_defs_by_game(x)`. */
  function AchDefsByGame(t: map<Kind, seq<Record>>, game: Record): Found
  {
    AchDefsByGameId(t, Get(game, "_id"))
  }

  /** The text "1" occurs in the text "10". */
  lemma OneInTen()
    ensures Contains(Lower(Str(VInt(1))), Lower(Str(VInt(10))))
  {
    assert IntToString(1) == "1";
    assert IntToString(10) == "10";
    assert Lower("1") == "1" && Lower("10") == "10";
    assert OccursAt("1", "10", 0);
  }

  /** Substring matching in action: a definition whose `game_id` merely
      contains the searched text is returned, so game 1 also collects the
      definitions of game 10. */
  lemma AchDefsByGameIdSubstring(t: map<Kind, seq<Record>>, d: Record)
    requires d in Table(t, AchievementDefinitions) && d.kind == AchievementDefinitions
    requires Get(d, "game_id") == VInt(10)
    ensures d in AchDefsByGameId(t, VInt(1)).recs
  {
    var s := Lower(Str(VInt(1)));
    OneInTen();
    assert TextHit(Get(d, "game_id"), s, false);
    assert ["game_id"][0] in Attrs(d.kind);
    assert LegacyHit(d, ["game_id"], s);
    FindByMeaning(VInt(1), ["game_id"], Table(t, AchievementDefinitions), false);
  }

  /** `ach_inst_by_ach_def(x)`. */
  function AchInstByAchDef(t: map<Kind, seq<Record>>, x: Record): Found
  {
    FindByResult(Get(x, "_id"), ["definition_id"], Table(t, AchievementInstances), true)
  }

  /** `ach_insts_by_ach_defs(xs)`. */
  function AchInstsByAchDefs(t: map<Kind, seq<Record>>, xs: seq<Record>): (r: seq<Found>)
    ensures |r| == |xs| && forall i | 0 <= i < |xs| :: r[i] == AchInstByAchDef(t, xs[i])
  {
    Map(xs, x => AchInstByAchDef(t, x))
  }

  /** The list a definitions lookup answered, `[]` for None. */
  function DefsOf(f: Found): seq<Record>
  {
    if f.Many? then f.recs else []
  }

  /** `ach_insts_by_game_id(x)` as written: a missing game is `[]`, which `is
      not None`, so `ach_defs_by_game` reads `.id` of a list and raises. */
  function AchInstsByGameIdAsWritten(t: map<Kind, seq<Record>>, x: Value): (r: Result<seq<Found>>)
    ensures r.Crash? <==> ById(t, Games, x).Many?
    ensures r.Ok? ==> r.value == AchInstsByGameId(t, x)
  {
    var game := ById(t, Games, x);
    if game.Many? then Crash("AttributeError: 'list' object has no attribute 'id'")
    else if game.Nothing? then Ok([])
    else Ok(AchInstsByAchDefs(t, DefsOf(AchDefsByGame(t, game.rec))))
  }

  /** `ach_insts_by_game_id(x)` as intended: `[]` when the game is missing,
      otherwise one entry per definition of the game, in order. */
  function AchInstsByGameId(t: map<Kind, seq<Record>>, x: Value): (r: seq<Found>)
    ensures !ById(t, Games, x).One? ==> r == []
    ensures ById(t, Games, x).One? ==> (
      var defs := DefsOf(AchDefsByGame(t, ById(t, Games, x).rec));
      && |r| == |defs|
      && forall i | 0 <= i < |r| :: r[i] == AchInstByAchDef(t, defs[i]))
  {
    var game := ById(t, Games, x);
    if game.One? then AchInstsByAchDefs(t, DefsOf(AchDefsByGame(t, game.rec))) else []
  }

  /** A games table without a matching id: the code as written raises, the
      intended lookup gives `[]`. */
  lemma AchInstsByGameIdMiss(t: map<Kind, seq<Record>>, x: Value)
    requires Table(t, Games) != []
    requires forall g <- Table(t, Games) :: !Contains(Lower(Str(x)), Lower(Str(Get(g, "_id"))))
    ensures AchInstsByGameIdAsWritten(t, x).Crash?
    ensures AchInstsByGameId(t, x) == []
  {
    var s := Lower(Str(x));
    var games := Table(t, Games);
    forall g <- games
      ensures !LegacyHit(g, ["_id"], s)
    {
      if "_id" in Attrs(g.kind) {
        SingleColumnHit(g, "_id", s);
      }
    }
    MissIsEmptyList(x, ["_id"], games);
  }

  /** The two agree whenever the game is found. */
  lemma AchInstsByGameIdAgrees(t: map<Kind, seq<Record>>, x: Value)
    requires !ById(t, Games, x).Many?
    ensures AchInstsByGameIdAsWritten(t, x) == Ok(AchInstsByGameId(t, x))
  {
  }

  /** `ach_insts_by_game(x)`, over the intended lookup. */
  function AchInstsByGame(t: map<Kind, seq<Record>>, game: Record): seq<Found>
  {
    AchInstsByGameId(t, Get(game, "_id"))
  }
}
