/** gpau_objects/structure.py, class Finder: the named lookups that tie the
    tables together, each one an exact-match `select` keeping the first hit. */
module Finder {
  import opened Outcomes
  import opened Values
  import opened Seqs
  import opened Structure
  import opened Database

  /** `select_by_cls_fe(cls, [col], [x])` on a column the table has: the first
      record, in `_id` order, whose `col` cell reads as `str(x)`. */
  function ByColumn(db: Db, k: Kind, col: string, x: Value): (r: Option<Record>)
    requires col in FieldNames(k)
    ensures r.None? <==> forall rec <- Records(db, k) :: !SqlEquals(Get(rec, col), Str(x))
    ensures r.Some? ==> r.value in Records(db, k) && SqlEquals(Get(r.value, col), Str(x))
  {
    var cs := Zip([col], [x]);
    assert cs == [(col, x)];
    assert forall rec :: SatisfiesAll(rec, cs, true) <==> ClauseHolds(rec, cs[0], true);
    SelectFirst(db, k, cs, true);
    var hits := Selected(db, k, cs, true);
    if |hits| > 0 then Some(hits[0]) else None
  }

  /** The lookup is the `select` it stands for. */
  lemma ByColumnIsSelect(db: Db, k: Kind, col: string, x: Value)
    requires col in FieldNames(k)
    ensures Select(db, k, Some([col]), Some([x]), true, true) == Ok(First(ByColumn(db, k, col, x)))
  {
    assert Zip([col], [x]) == [(col, x)];
  }

  /** When exactly one record carries the key, the lookup finds that record. */
  lemma ByColumnUnique(db: Db, k: Kind, col: string, x: Value, rec: Record)
    requires col in FieldNames(k)
    requires rec in Records(db, k) && SqlEquals(Get(rec, col), Str(x))
    requires forall other <- Records(db, k) :: SqlEquals(Get(other, col), Str(x)) ==> other == rec
    ensures ByColumn(db, k, col, x) == Some(rec)
  {
    var r := ByColumn(db, k, col, x);
    assert r.Some?;
  }

  lemma IdColumn(k: Kind)
    ensures "_id" in FieldNames(k)
  {
    IdFirst(k);
  }

  /** The columns the lookups name are columns of their tables. */
  lemma Column(k: Kind, j: nat, name: string)
    requires j < Arity(k) && FieldNames(k)[j] == name
    ensures name in FieldNames(k)
  {
  }

  function ById(db: Db, k: Kind, x: Value): Option<Record>
  {
    IdColumn(k);
    ByColumn(db, k, "_id", x)
  }

  function AchDefById(db: Db, x: Value): Option<Record>
  {
    ById(db, AchievementDefinitions, x)
  }

  function AchDefByExternalId(db: Db, x: Value): Option<Record>
  {
    Column(AchievementDefinitions, 2, "external_achievement_id");
    ByColumn(db, AchievementDefinitions, "external_achievement_id", x)
  }

  function AchInstById(db: Db, x: Value): Option<Record>
  {
    ById(db, AchievementInstances, x)
  }

  function ClientContextById(db: Db, x: Value): Option<Record>
  {
    ById(db, ClientContexts, x)
  }

  function GameInstById(db: Db, x: Value): Option<Record>
  {
    ById(db, GameInstances, x)
  }

  function GamePlayerIdById(db: Db, x: Value): Option<Record>
  {
    ById(db, GamePlayerIds, x)
  }

  function GameById(db: Db, x: Value): Option<Record>
  {
    ById(db, Games, x)
  }

  function ImageById(db: Db, x: Value): Option<Record>
  {
    ById(db, Images, x)
  }

  /** The definition an achievement instance belongs to. */
  function AchDefByAchInst(db: Db, x: Record): Option<Record>
    requires x.kind == AchievementInstances
  {
    AchDefById(db, Get(x, "definition_id"))
  }

  function AchDefsByAchInsts(db: Db, xs: seq<Record>): seq<Option<Record>>
    requires forall x <- xs :: x.kind == AchievementInstances
  {
    seq(|xs|, i requires 0 <= i < |xs| => AchDefByAchInst(db, xs[i]))
  }

  /** The installed instance of a game: `instance_game_id = game._id and installed = 1`. */
  function GameInstByGame(db: Db, x: Record): Option<Record>
    requires x.kind == Games
  {
    Column(GameInstances, 1, "instance_game_id");
    Column(GameInstances, 8, "installed");
    ByColumns(db, GameInstances, "instance_game_id", Get(x, "_id"), "installed", VInt(1))
  }

  /** `select_by_cls_fe(cls, [c1, c2], [x1, x2])` on two columns the table has:
      the first record matching both. */
  function ByColumns(db: Db, k: Kind, c1: string, x1: Value, c2: string, x2: Value): (r: Option<Record>)
    requires c1 in FieldNames(k) && c2 in FieldNames(k)
    ensures r.Some? ==> (r.value in Records(db, k)
      && SqlEquals(Get(r.value, c1), Str(x1)) && SqlEquals(Get(r.value, c2), Str(x2)))
    ensures r.None? <==> forall rec <- Records(db, k) ::
      !(SqlEquals(Get(rec, c1), Str(x1)) && SqlEquals(Get(rec, c2), Str(x2)))
  {
    var cs := Zip([c1, c2], [x1, x2]);
    assert cs == [(c1, x1), (c2, x2)];
    assert forall rec :: SatisfiesAll(rec, cs, true) <==>
      (ClauseHolds(rec, cs[0], true) && ClauseHolds(rec, cs[1], true));
    SelectFirst(db, k, cs, true);
    var hits := Selected(db, k, cs, true);
    if |hits| > 0 then Some(hits[0]) else None
  }

  /** The two-column lookup is the `select` it stands for. */
  lemma ByColumnsIsSelect(db: Db, k: Kind, c1: string, x1: Value, c2: string, x2: Value)
    requires c1 in FieldNames(k) && c2 in FieldNames(k)
    ensures Select(db, k, Some([c1, c2]), Some([x1, x2]), true, true) == Ok(First(ByColumns(db, k, c1, x1, c2, x2)))
  {
    assert Zip([c1, c2], [x1, x2]) == [(c1, x1), (c2, x2)];
  }

  function GameInstsByGames(db: Db, xs: seq<Record>): seq<Option<Record>>
    requires forall x <- xs :: x.kind == Games
  {
    seq(|xs|, i requires 0 <= i < |xs| => GameInstByGame(db, xs[i]))
  }

  function GameInstByGameId(db: Db, x: Value): Option<Record>
  {
    Column(GameInstances, 1, "instance_game_id");
    ByColumn(db, GameInstances, "instance_game_id", x)
  }

  function GameInstByPackageName(db: Db, x: Value): Option<Record>
  {
    Column(GameInstances, 6, "package_name");
    ByColumn(db, GameInstances, "package_name", x)
  }

  function GameByGameInst(db: Db, x: Record): Option<Record>
    requires x.kind == GameInstances
  {
    GameById(db, Get(x, "instance_game_id"))
  }

  function GameByExternalId(db: Db, x: Value): Option<Record>
  {
    Column(Games, 1, "external_game_id");
    ByColumn(db, Games, "external_game_id", x)
  }

  /** The game of an achievement instance, through its definition; None when
      the definition is missing (a found record is always truthy). */
  function GameByAchInst(db: Db, x: Record): Option<Record>
    requires x.kind == AchievementInstances
  {
    var udef := AchDefByAchInst(db, x);
    if udef.Some? then GameByAchDef(db, udef.value) else None
  }

  /** A game is found for an instance exactly through a definition whose `_id`
      matches the instance's `definition_id` and whose `game_id` matches the
      game's `_id`. */
  lemma GameByAchInstChain(db: Db, x: Record)
    requires x.kind == AchievementInstances
    ensures AchDefByAchInst(db, x).None? ==> GameByAchInst(db, x).None?
    ensures GameByAchInst(db, x).Some? ==>
      exists d <- Records(db, AchievementDefinitions) ::
        && SqlEquals(Get(d, "_id"), Str(Get(x, "definition_id")))
        && d.kind == AchievementDefinitions
        && GameByAchInst(db, x).value in Records(db, Games)
        && SqlEquals(Get(GameByAchInst(db, x).value, "_id"), Str(Get(d, "game_id")))
  {
    var udef := AchDefByAchInst(db, x);
    if udef.Some? {
      RecordsKind(db, AchievementDefinitions, udef.value);
    }
  }

  /** Every record a table yields is of that table's class. */
  lemma RecordsKind(db: Db, k: Kind, rec: Record)
    requires rec in Records(db, k)
    ensures rec.kind == k
  {
    var i :| 0 <= i < |Records(db, k)| && Records(db, k)[i] == rec;
  }

  /** `search_by_cls_fe(search, cls=Game)`: the first game with a column equal
      to the search ignoring case, or None when no game has one. */
  function GameByName(db: Db, search: Value): (r: Option<Record>)
    ensures r.None? <==> forall g <- Records(db, Games) :: !SearchHit(g, Lower(Str(search)), true)
    ensures r.Some? ==> r.value in Records(db, Games) && SearchHit(r.value, Lower(Str(search)), true)
  {
    SearchFirst(db, Games, search, true);
    Search(db, Games, search, true, true).hit
  }

  /** `search_by_cls(search, cls=Game)`: the games, in `_id` order, with a
      column containing the search ignoring case. */
  function GamesByName(db: Db, search: Value): (r: seq<Record>)
    ensures Subsequence(r, Records(db, Games))
    ensures forall g :: g in r <==> g in Records(db, Games) && SearchHit(g, Lower(Str(search)), false)
  {
    SearchAll(db, Games, search, false);
    Search(db, Games, search, false, false).hits
  }

  function GameByAchDef(db: Db, x: Record): Option<Record>
    requires x.kind == AchievementDefinitions
  {
    GameById(db, Get(x, "game_id"))
  }

  function GamesByAchDefs(db: Db, xs: seq<Record>): seq<Option<Record>>
    requires forall x <- xs :: x.kind == AchievementDefinitions
  {
    seq(|xs|, i requires 0 <= i < |xs| => GameByAchDef(db, xs[i]))
  }

  /** `select_by_cls(cls, [col], [x], exact=True)` on a column the table has:
      every record whose `col` cell reads as `str(x)`, in `_id` order. */
  function AllByColumn(db: Db, k: Kind, col: string, x: Value): (r: seq<Record>)
    requires col in FieldNames(k)
    ensures forall d :: d in r <==> d in Records(db, k) && SqlEquals(Get(d, col), Str(x))
    ensures Subsequence(r, Records(db, k))
  {
    var cs := Zip([col], [x]);
    assert cs == [(col, x)];
    assert forall rec :: SatisfiesAll(rec, cs, true) <==> ClauseHolds(rec, cs[0], true);
    SelectAll(db, k, cs, true);
    Selected(db, k, cs, true)
  }

  /** The list lookup is the `select` it stands for. */
  lemma AllByColumnIsSelect(db: Db, k: Kind, col: string, x: Value)
    requires col in FieldNames(k)
    ensures Select(db, k, Some([col]), Some([x]), false, true) == Ok(All(AllByColumn(db, k, col, x)))
  {
    assert Zip([col], [x]) == [(col, x)];
  }

  function AchDefsByGameId(db: Db, x: Value): seq<Record>
  {
    Column(AchievementDefinitions, 1, "game_id");
    AllByColumn(db, AchievementDefinitions, "game_id", x)
  }

  function AchDefsByGame(db: Db, x: Record): seq<Record>
    requires x.kind == Games
  {
    AchDefsByGameId(db, Get(x, "_id"))
  }

  function AchInstByAchDef(db: Db, x: Record): Option<Record>
    requires x.kind == AchievementDefinitions
  {
    Column(AchievementInstances, 1, "definition_id");
    ByColumn(db, AchievementInstances, "definition_id", Get(x, "_id"))
  }

  function AchInstsByAchDefs(db: Db, xs: seq<Record>): seq<Option<Record>>
    requires forall x <- xs :: x.kind == AchievementDefinitions
  {
    seq(|xs|, i requires 0 <= i < |xs| => AchInstByAchDef(db, xs[i]))
  }

  /** The instances of a game's achievements, one entry per definition (None
      where a definition has no instance); `[]` when no game has that `_id` or
      the game has no definitions. */
  function AchInstsByGameId(db: Db, x: Value): seq<Option<Record>>
  {
    var ugame := GameById(db, x);
    if ugame.Some? then
      RecordsKind(db, Games, ugame.value);
      var udefs := AchDefsByGame(db, ugame.value);
      if |udefs| > 0 then
        forall d <- udefs ensures d.kind == AchievementDefinitions {
          RecordsKind(db, AchievementDefinitions, d);
        }
        AchInstsByAchDefs(db, udefs)
      else []
    else []
  }

  function AchInstsByGame(db: Db, x: Record): seq<Option<Record>>
    requires x.kind == Games
  {
    AchInstsByGameId(db, Get(x, "_id"))
  }

  /** One entry per definition, each the first instance of that definition,
      None exactly when the definition has no instance. */
  lemma InstancesOfDefinitions(db: Db, defs: seq<Record>)
    requires forall d <- defs :: d.kind == AchievementDefinitions
    ensures |AchInstsByAchDefs(db, defs)| == |defs|
    ensures forall i | 0 <= i < |defs| :: InstanceOf(db, AchInstsByAchDefs(db, defs)[i], defs[i])
  {
    forall i | 0 <= i < |defs|
      ensures InstanceOf(db, AchInstsByAchDefs(db, defs)[i], defs[i])
    {
      assert AchInstsByAchDefs(db, defs)[i] == AchInstByAchDef(db, defs[i]);
    }
  }

  /** `e` is what looking up the instance of definition `d` can give. */
  predicate InstanceOf(db: Db, e: Option<Record>, d: Record)
  {
    && (e.Some? ==> e.value in Records(db, AchievementInstances)
                    && SqlEquals(Get(e.value, "definition_id"), Str(Get(d, "_id"))))
    && (e.None? <==> forall inst <- Records(db, AchievementInstances) ::
                       !SqlEquals(Get(inst, "definition_id"), Str(Get(d, "_id"))))
  }

  /** What `ach_insts_by_game_id` returns: nothing without a game; otherwise one
      entry per definition of the first game with that `_id` (definitions in
      `_id` order), each entry that definition's instance. */
  lemma AchInstsByGameIdMeaning(db: Db, x: Value)
    ensures GameById(db, x).None? ==> AchInstsByGameId(db, x) == []
    ensures GameById(db, x).Some? ==>
      var defs := AchDefsByGameId(db, Get(GameById(db, x).value, "_id"));
      && |AchInstsByGameId(db, x)| == |defs|
      && forall i | 0 <= i < |defs| :: InstanceOf(db, AchInstsByGameId(db, x)[i], defs[i])
  {
    var ugame := GameById(db, x);
    if ugame.Some? {
      RecordsKind(db, Games, ugame.value);
      var defs := AchDefsByGame(db, ugame.value);
      if |defs| > 0 {
        forall d <- defs
          ensures d.kind == AchievementDefinitions
        {
          RecordsKind(db, AchievementDefinitions, d);
        }
        assert AchInstsByGameId(db, x) == AchInstsByAchDefs(db, defs);
        InstancesOfDefinitions(db, defs);
      }
    }
  }

  /** The client context sharing the game instance's package name. */
  function ClientContextByGameInst(db: Db, x: Record): (r: Option<Record>)
    requires x.kind == GameInstances
  {
    Column(ClientContexts, 1, "package_name");
    ByColumn(db, ClientContexts, "package_name", Get(x, "package_name"))
  }
}
