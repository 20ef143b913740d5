/** gpau_objects/gpau.py: deciding what to queue for an achievement, which
    player and which app a command means, and the achievement search. */
module Unlocker {
  import opened Outcomes
  import opened Values
  import opened Seqs
  import opened Structure
  import opened Database
  import opened Finder

  /** The attributes the unlocker reads off its argument object. `quiet` and
      `playerId` are None when the object has no such attribute, so reading
      it raises AttributeError; `app`, `appId` and a present `playerId` hold
      the parsed value (VNone when the option was not given). */
  datatype Args = Args(quiet: Option<bool>, autoIncAchs: bool, playerId: Option<Value>, app: Value, appId: Value)

  // ---------------------------------------------------------------------------
  // get_increment_value

  /** An answer `int()` turned into a number that is not negative. */
  predicate Accepted(a: Option<int>)
  {
    a.Some? && a.value >= 0
  }

  /** `get_increment_value`: asks again until an answer is a non-negative
      integer. Each answer is None when `int()` refuses it; running out of
      input raises EOFError. */
  function IncrementValue(answers: seq<Option<int>>): (r: Result<int>)
    ensures !r.Abort?
    ensures r.Ok? ==> r.value >= 0
    ensures r.Ok? <==> exists j | 0 <= j < |answers| :: Accepted(answers[j])
    decreases |answers|
  {
    if answers == [] then Crash("EOFError: EOF when reading a line")
    else if Accepted(answers[0]) then Ok(answers[0].value)
    else
      var r := IncrementValue(answers[1..]);
      assert r.Ok? <==> exists j | 0 <= j < |answers| :: Accepted(answers[j]) by {
        if exists j | 0 <= j < |answers| :: Accepted(answers[j]) {
          var j :| 0 <= j < |answers| && Accepted(answers[j]);
          assert answers[1..][j - 1] == answers[j];
        }
      }
      r
  }

  /** The value returned is the first accepted answer; every earlier one was
      refused and asked again. */
  lemma {:induction false} IncrementValueFirst(answers: seq<Option<int>>)
    requires IncrementValue(answers).Ok?
    ensures exists j | 0 <= j < |answers| ::
      && answers[j] == Some(IncrementValue(answers).value)
      && forall i | 0 <= i < j :: !Accepted(answers[i])
    decreases |answers|
  {
    if !Accepted(answers[0]) {
      IncrementValueFirst(answers[1..]);
      var j :| 0 <= j < |answers[1..]|
        && answers[1..][j] == Some(IncrementValue(answers[1..]).value)
        && forall i | 0 <= i < j :: !Accepted(answers[1..][i]);
      assert answers[j + 1] == answers[1..][j];
      forall i | 0 <= i < j + 1
        ensures !Accepted(answers[i])
      {
        if i > 0 {
          assert answers[i] == answers[1..][i - 1];
        }
      }
    } else {
      assert answers[0] == Some(IncrementValue(answers).value);
    }
  }

  // ---------------------------------------------------------------------------
  // get_player_id

  /** The players' first row, in `_id` order, gives the player id; no player is
      a fatal error. */
  function FirstPlayer(db: Db): (r: Result<Value>)
    ensures !r.Crash?
    ensures r.Abort? <==> Records(db, Players) == []
    ensures r.Ok? ==> r.value == Get(Records(db, Players)[0], "external_player_id")
  {
    var players := Records(db, Players);
    if players == [] then Abort("Couldn't find any player") else Ok(Get(players[0], "external_player_id"))
  }

  /** `get_player_id` as written: `args.player_id[0]`. The option is parsed as one
      string, so this is its first character. */
  function PlayerIdAsWritten(db: Db, args: Args): (r: Result<Value>)
    ensures args.playerId.None? ==> r.Crash?
    ensures args.playerId.Some? && args.playerId.value.VStr? && Truthy(args.playerId.value) ==>
      r.Ok? && r.value.VStr? && |r.value.s| == 1 && IsPrefix(r.value.s, args.playerId.value.s)
    ensures args.playerId.Some? && !Truthy(args.playerId.value) ==> r == FirstPlayer(db)
  {
    if args.playerId.None? then Crash("AttributeError: object has no attribute 'player_id'")
    else if Truthy(args.playerId.value) then
      match args.playerId.value
      case VStr(s) => Ok(VStr(s[..1]))
      case _ => Crash("TypeError: object is not subscriptable")
    else FirstPlayer(db)
  }

  /** `get_player_id` with the override taken whole: a given override wins,
      otherwise the first player's external id; no player at all aborts. */
  function PlayerId(db: Db, args: Args): (r: Result<Value>)
    ensures args.playerId.None? ==> r.Crash?
    ensures args.playerId.Some? && Truthy(args.playerId.value) ==> r == Ok(args.playerId.value)
    ensures args.playerId.Some? && !Truthy(args.playerId.value) ==>
      (r.Abort? <==> Records(db, Players) == [])
      && (r.Ok? ==> r.value == Get(Records(db, Players)[0], "external_player_id"))
  {
    if args.playerId.None? then Crash("AttributeError: object has no attribute 'player_id'")
    else if Truthy(args.playerId.value) then Ok(args.playerId.value)
    else FirstPlayer(db)
  }

  /** A player id given on the command line is cut to its first character as
      written, and kept whole once corrected. */
  lemma PlayerIdTruncated(db: Db, args: Args)
    requires args.playerId == Some(VStr("g1234"))
    ensures PlayerIdAsWritten(db, args) == Ok(VStr("g"))
    ensures PlayerId(db, args) == Ok(VStr("g1234"))
    ensures PlayerIdAsWritten(db, args) != PlayerId(db, args)
  {
    assert "g1234"[..1] == "g";
  }

  /** Without an override both readings agree. */
  lemma PlayerIdAgreeWithoutOverride(db: Db, args: Args)
    requires args.playerId.Some? && !Truthy(args.playerId.value)
    ensures PlayerIdAsWritten(db, args) == PlayerId(db, args) == FirstPlayer(db)
  {
  }

  // ---------------------------------------------------------------------------
  // get_app

  /** `get_app(optional)`: the game named by `-a` (a package name, through its
      game instance) or else by `-aid` (an external game id). With neither
      option, or when the lookup fails, None if `optional`, else a fatal error. */
  function GetApp(db: Db, args: Args, optional: bool): (r: Result<Option<Record>>)
    ensures !r.Crash?
    ensures r.Abort? ==> !optional
    ensures r.Ok? && r.value.Some? ==> r.value.value in Records(db, Games)
    ensures args.app == VNone && args.appId == VNone ==>
      r == (if optional then Ok(None) else Abort("No package specified (use -a or -aid)\n"))
    ensures args.app != VNone && GameInstByPackageName(db, args.app).None? ==>
      r == (if optional then Ok(None) else Abort("Package not found\n"))
    ensures args.app != VNone && GameInstByPackageName(db, args.app).Some? ==>
      (RecordsKind(db, GameInstances, GameInstByPackageName(db, args.app).value);
       r == Ok(GameByGameInst(db, GameInstByPackageName(db, args.app).value)))
    ensures args.app == VNone && args.appId != VNone && GameByExternalId(db, args.appId).None? ==>
      r == (if optional then Ok(None) else Abort("Package not found\n"))
    ensures args.app == VNone && args.appId != VNone && GameByExternalId(db, args.appId).Some? ==>
      r == Ok(GameByExternalId(db, args.appId))
  {
    if args.app == VNone && args.appId == VNone then
      if optional then Ok(None) else Abort("No package specified (use -a or -aid)\n")
    else if args.app != VNone then
      var app := GameInstByPackageName(db, args.app);
      if app.None? then
        if optional then Ok(None) else Abort("Package not found\n")
      else
        RecordsKind(db, GameInstances, app.value);
        Ok(GameByGameInst(db, app.value))
    else
      var app := GameByExternalId(db, args.appId);
      if app.None? then
        if optional then Ok(None) else Abort("Package not found\n")
      else Ok(app)
  }

  /** `-a` wins over `-aid`: once a package name is given the external id plays
      no part. */
  lemma AppPriority(db: Db, args: Args, optional: bool, other: Value)
    requires args.app != VNone
    ensures GetApp(db, args, optional) == GetApp(db, args.(appId := other), optional)
  {
  }

  /** A game found through `-a` is the game of an instance with that package
      name; one found through `-aid` carries that external game id. */
  lemma AppMeaning(db: Db, args: Args, optional: bool)
    requires GetApp(db, args, optional).Ok? && GetApp(db, args, optional).value.Some?
    ensures args.app != VNone ==>
      exists gi <- Records(db, GameInstances) ::
        && SqlEquals(Get(gi, "package_name"), Str(args.app))
        && SqlEquals(Get(GetApp(db, args, optional).value.value, "_id"), Str(Get(gi, "instance_game_id")))
    ensures args.app == VNone ==>
      SqlEquals(Get(GetApp(db, args, optional).value.value, "external_game_id"), Str(args.appId))
  {
    if args.app != VNone {
      var app := GameInstByPackageName(db, args.app);
      assert app.Some?;
      assert app.value in Records(db, GameInstances);
    }
  }

  // ---------------------------------------------------------------------------
  // unlock_achievement

  /** The records `unlock_achievement` reaches from a definition. */
  datatype Links = Links(inst: Record, game: Record, gameInst: Record, cc: Option<Record>)

  /** The chain of lookups from a definition: its instance, that instance's game,
      the game's installed instance and the client context of its package.
      A missing instance, game or game instance is read as `None.attr` and
      raises AttributeError; a missing client context is left to the caller. */
  function Resolve(db: Db, def: Record): (r: Result<Links>)
    requires def.kind == AchievementDefinitions
    ensures !r.Abort?
    ensures AchInstByAchDef(db, def).None? ==> r.Crash?
    ensures r.Ok? ==>
      && r.value.inst in Records(db, AchievementInstances)
      && SqlEquals(Get(r.value.inst, "definition_id"), Str(Get(def, "_id")))
      && r.value.game in Records(db, Games)
      && r.value.gameInst in Records(db, GameInstances)
      && SqlEquals(Get(r.value.gameInst, "instance_game_id"), Str(Get(r.value.game, "_id")))
      && SqlEquals(Get(r.value.gameInst, "installed"), Str(VInt(1)))
      && (r.value.cc.Some? ==>
            r.value.cc.value in Records(db, ClientContexts)
            && SqlEquals(Get(r.value.cc.value, "package_name"), Str(Get(r.value.gameInst, "package_name"))))
  {
    var inst := AchInstByAchDef(db, def);
    if inst.None? then Crash("AttributeError: 'NoneType' object has no attribute 'definition_id'")
    else
      RecordsKind(db, AchievementInstances, inst.value);
      var game := GameByAchInst(db, inst.value);
      if game.None? then Crash("AttributeError: 'NoneType' object has no attribute 'id'")
      else
        GameByAchInstChain(db, inst.value);
        RecordsKind(db, Games, game.value);
        var gi := GameInstByGame(db, game.value);
        if gi.None? then Crash("AttributeError: 'NoneType' object has no attribute 'package_name'")
        else
          RecordsKind(db, GameInstances, gi.value);
          Ok(Links(inst.value, game.value, gi.value, ClientContextByGameInst(db, gi.value)))
  }

  /** What one call of `unlock_achievement` ends in. */
  datatype Unlocked = NotGiven | AlreadyUnlocked | Queued(row: Row)

  /** `total_steps - current_steps`; Python refuses to subtract anything but
      numbers. */
  function Minus(a: Value, b: Value): (r: Result<Value>)
    ensures r.Ok? <==> a.VInt? && b.VInt?
    ensures r.Ok? ==> r.value == VInt(a.i - b.i)
  {
    if a.VInt? && b.VInt? then Ok(VInt(a.i - b.i))
    else Crash("TypeError: unsupported operand type(s) for -")
  }

  /** `steps_to_increment`: '' unless the achievement is incremental; then the
      steps still missing with auto-increment on, or what the user answers. */
  function Steps(args: Args, def: Record, inst: Record, answers: seq<Option<int>>): (r: Result<Value>)
    ensures !IsIncremental(def) ==> r == Ok(VStr(""))
    ensures IsIncremental(def) && args.autoIncAchs ==>
      r == Minus(Get(def, "total_steps"), Get(inst, "current_steps"))
    ensures IsIncremental(def) && !args.autoIncAchs && r.Ok? ==>
      r.value.VInt? && r.value.i >= 0 && IncrementValue(answers) == Ok(r.value.i)
    ensures IsIncremental(def) && !args.autoIncAchs && IncrementValue(answers).Ok? ==>
      r == Ok(VInt(IncrementValue(answers).value))
    ensures IsIncremental(def) && !args.autoIncAchs && IncrementValue(answers).Crash? ==>
      r == Crash(IncrementValue(answers).reason)
  {
    if !IsIncremental(def) then Ok(VStr(""))
    else if args.autoIncAchs then Minus(Get(def, "total_steps"), Get(inst, "current_steps"))
    else
      match IncrementValue(answers)
      case Ok(v) => Ok(VInt(v))
      case Abort(m) => Abort(m)
      case Crash(e) => Crash(e)
  }

  /** The nine values `unlock_achievement` queues, in table order. */
  function PendingRow(id: int, links: Links, def: Record, steps: Value, player: Value): (r: Row)
    requires links.cc.Some?
    ensures |r| == Arity(AchievementPendingOps) && r[0].VInt? && OpId(r) == id
  {
    [VInt(id), Get(links.cc.value, "_id"), Get(def, "external_achievement_id"), Get(def, "type"),
     VInt(0), steps, VStr(""), Get(links.game, "external_game_id"), player]
  }

  /** The same values as the dict literal `unlock_achievement` builds. */
  function PendingOp(id: int, links: Links, def: Record, steps: Value, player: Value): (op: seq<(string, Value)>)
    requires links.cc.Some?
    ensures DictValues(op) == PendingRow(id, links, def, steps, player)
  {
    [("_id", VInt(id)), ("client_context_id", Get(links.cc.value, "_id")),
     ("external_achievement_id", Get(def, "external_achievement_id")),
     ("achievement_type", Get(def, "type")), ("new_state", VInt(0)),
     ("steps_to_increment", steps), ("min_steps_to_set", VStr("")),
     ("external_game_id", Get(links.game, "external_game_id")), ("external_player_id", player)]
  }

  /** What `unlock_achievement(d)` does to a database, before anything is
      written: nothing for None; a crash on a broken chain; otherwise what
      `Decide` makes of the records the chain reached. */
  function Unlock(db: Db, args: Args, answers: seq<Option<int>>, d: Option<Record>): (r: Result<Unlocked>)
    requires PendingValid(db.pendingOps)
    requires d.Some? ==> d.value.kind == AchievementDefinitions
    ensures d.None? ==> r == Ok(NotGiven)
    ensures d.Some? && Resolve(db, d.value).Crash? ==> r.Crash?
    ensures d.Some? && Resolve(db, d.value).Ok? ==> r == Decide(db, args, answers, d.value, Resolve(db, d.value).value)
  {
    if d.None? then Ok(NotGiven)
    else
      match Resolve(db, d.value)
      case Abort(m) => Abort(m)
      case Crash(e) => Crash(e)
      case Ok(links) => Decide(db, args, answers, d.value, links)
  }

  /** The rest of `unlock_achievement` once the chain is resolved: a fatal
      error without client context; "already unlocked" when the state is NULL;
      otherwise the row to queue. Reading the absent `quiet` attribute raises
      where the source first reads it. */
  function Decide(db: Db, args: Args, answers: seq<Option<int>>, def: Record, links: Links): (r: Result<Unlocked>)
    requires PendingValid(db.pendingOps)
    ensures r != Ok(NotGiven)
    ensures r.Ok? && r.value.Queued? ==>
      |r.value.row| == Arity(AchievementPendingOps) && OpId(r.value.row) == NextOpId(db.pendingOps)
  {
    if args.quiet.None? then Crash("AttributeError: object has no attribute 'quiet'")
    else if links.cc.None? then
      Abort(if !args.quiet.value then "No client context found for this game\n" else "")
    else if Get(links.inst, "state") == VNone then Ok(AlreadyUnlocked)
    else
      match Steps(args, def, links.inst, answers)
      case Abort(m) => Abort(m)
      case Crash(e) => Crash(e)
      case Ok(steps) =>
        match PlayerId(db, args)
        case Abort(m) => Abort(m)
        case Crash(e) => Crash(e)
        case Ok(player) => Ok(Queued(PendingRow(NextOpId(db.pendingOps), links, def, steps, player)))
  }

  /** The outcomes the decision can end in, and when: without client context a
      fatal error (silent when quiet), "already unlocked" exactly for a NULL
      state, and a queued row only past both. */
  lemma DecideOutcomes(db: Db, args: Args, answers: seq<Option<int>>, def: Record, links: Links)
    requires PendingValid(db.pendingOps)
    ensures args.quiet.None? ==> Decide(db, args, answers, def, links).Crash?
    ensures args.quiet.Some? ==>
      && (links.cc.None? <==>
            Decide(db, args, answers, def, links).Abort?
            && Decide(db, args, answers, def, links).message in {"No client context found for this game\n", ""})
      && (Decide(db, args, answers, def, links) == Ok(AlreadyUnlocked) <==>
            links.cc.Some? && Get(links.inst, "state") == VNone)
    ensures args.quiet.Some? && links.cc.None? ==>
      Decide(db, args, answers, def, links) == Abort(if !args.quiet.value then "No client context found for this game\n" else "")
    ensures Decide(db, args, answers, def, links) != Ok(NotGiven)
  {
    if args.quiet.Some? && links.cc.Some? && Get(links.inst, "state") != VNone {
      DecidePastChecks(db, args, answers, def, links);
    }
  }

  /** Past the client-context and state checks the only fatal error left is
      the missing player, and success means a queued row. */
  lemma DecidePastChecks(db: Db, args: Args, answers: seq<Option<int>>, def: Record, links: Links)
    requires PendingValid(db.pendingOps)
    requires args.quiet.Some? && links.cc.Some? && Get(links.inst, "state") != VNone
    ensures Decide(db, args, answers, def, links).Abort? ==>
      Decide(db, args, answers, def, links).message == "Couldn't find any player"
    ensures Decide(db, args, answers, def, links).Ok? ==> Decide(db, args, answers, def, links).value.Queued?
  {
    var steps := Steps(args, def, links.inst, answers);
    assert !steps.Abort?;
    if steps.Ok? {
      var player := PlayerId(db, args);
      assert player.Abort? ==> player.message == "Couldn't find any player";
    }
  }

  /** A state of 0, which `is_unlocked` reports as unlocked, is not what
      `unlock_achievement` skips: only NULL is. */
  lemma UnlockedStateStillQueued(db: Db, args: Args, answers: seq<Option<int>>, def: Record, links: Links)
    requires PendingValid(db.pendingOps)
    requires IsUnlocked(links.inst)
    ensures Decide(db, args, answers, def, links) != Ok(AlreadyUnlocked)
  {
  }

  /** A row is queued only for an instance whose state is not NULL, with a
      client context, once the steps and the player are settled; the row is
      the next free id followed by what those supplied. */
  lemma QueuedRow(db: Db, args: Args, answers: seq<Option<int>>, def: Record, links: Links)
    requires PendingValid(db.pendingOps)
    requires Decide(db, args, answers, def, links).Ok? && Decide(db, args, answers, def, links).value.Queued?
    ensures links.cc.Some? && args.quiet.Some? && Get(links.inst, "state") != VNone
    ensures Steps(args, def, links.inst, answers).Ok? && PlayerId(db, args).Ok?
    ensures Decide(db, args, answers, def, links).value.row ==
      PendingRow(NextOpId(db.pendingOps), links, def, Steps(args, def, links.inst, answers).value, PlayerId(db, args).value)
  {
  }

  /** The queued row carries the next free id, so appending it keeps the
      pending-op table valid: ids stay unique and ascending. */
  lemma QueuedKeepsValid(db: Db, args: Args, answers: seq<Option<int>>, d: Option<Record>)
    requires PendingValid(db.pendingOps)
    requires d.Some? ==> d.value.kind == AchievementDefinitions
    requires Unlock(db, args, answers, d).Ok? && Unlock(db, args, answers, d).value.Queued?
    ensures OpId(Unlock(db, args, answers, d).value.row) == NextOpId(db.pendingOps)
    ensures PendingValid(db.pendingOps + [Unlock(db, args, answers, d).value.row])
  {
    var links := Resolve(db, d.value).value;
    QueuedRow(db, args, answers, d.value, links);
    var row := Unlock(db, args, answers, d).value.row;
    NextIdAppends(db.pendingOps, row);
    InsertRowSorted(db.pendingOps, row);
  }

  /** The unlocker: its parsed arguments and the database it writes to. */
  class Gpau {
    var args: Args
    const file: DbFile

    constructor (args: Args, file: DbFile)
      ensures this.args == args && this.file == file
    {
      this.args := args;
      this.file := file;
    }

    /** `unlock_achievement(d)`: resolves the chain, then queues one pending op
      with the next free id. Nothing is written unless a row is queued, and
      then the row is appended and nothing else changes. */
    method UnlockAchievement(answers: seq<Option<int>>, d: Option<Record>) returns (res: Result<Unlocked>)
      requires file.Valid()
      requires d.Some? ==> d.value.kind == AchievementDefinitions
      modifies file
      ensures file.Valid()
      ensures res == Unlock(old(file.db), args, answers, d)
      ensures res.Ok? && res.value.Queued? ==>
        file.db == old(file.db).(pendingOps := old(file.db.pendingOps) + [res.value.row])
      ensures !(res.Ok? && res.value.Queued?) ==> file.db == old(file.db)
    {
      if d.None? {
        return Ok(NotGiven);
      }
      var links := Resolve(file.db, d.value);
      if links.Crash? {
        return Crash(links.reason);
      }
      res := Queue(answers, d.value, links.value);
    }

    /** What follows the lookups in `unlock_achievement`: the checks, the
      questions and, when they all pass, one pending op with the next free id
      appended to the queue. */
    method Queue(answers: seq<Option<int>>, def: Record, links: Links) returns (res: Result<Unlocked>)
      requires file.Valid()
      modifies file
      ensures file.Valid()
      ensures res == Decide(old(file.db), args, answers, def, links)
      ensures res.Ok? && res.value.Queued? ==>
        file.db == old(file.db).(pendingOps := old(file.db.pendingOps) + [res.value.row])
      ensures !(res.Ok? && res.value.Queued?) ==> file.db == old(file.db)
    {
      var db := file.db;
      var quiet := args.quiet;
      if quiet.None? {
        return Crash("AttributeError: object has no attribute 'quiet'");
      }
      var cc := links.cc;
      if cc.None? {
        return Abort(if !quiet.value then "No client context found for this game\n" else "");
      }
      if Get(links.inst, "state") == VNone {
        return Ok(AlreadyUnlocked);
      }
      var steps := Steps(args, def, links.inst, answers);
      if steps.Abort? {
        return Abort(steps.message);
      } else if steps.Crash? {
        return Crash(steps.reason);
      }
      var id := file.NextPendingOpId();
      var player := PlayerId(db, args);
      if player.Abort? {
        return Abort(player.message);
      } else if player.Crash? {
        return Crash(player.reason);
      }
      var op := PendingOp(id, links, def, steps.value, player.value);
      var row := PendingRow(id, links, def, steps.value, player.value);
      NextIdAppends(db.pendingOps, row);
      var added := file.AddPendingOp(op);
      res := Ok(Queued(row));
    }

    /** The selection part of `find_achievements`: the package's definitions,
      or every definition without a package, kept when the search text occurs
      in the name or the description, in order. */
    method FindAchievements(search: Value, package: Option<Record>) returns (found: seq<Record>)
      requires package.Some? ==> package.value.kind == Games
      ensures Subsequence(found, Candidates(file.db, package))
      ensures forall x :: x in found <==>
        x in Candidates(file.db, package) && ByHit(x, ["name", "description"], Lower(Str(search)), false)
    {
      var achs := Candidates(file.db, package);
      var h := SearchInstancesBy(search, Some(["name", "description"]), Some(achs), false, false);
      found := h.hits;
      MatchingMeaning(achs, ["name", "description"], Lower(Str(search)), false);
      if achs == [] {
        assert Matching(achs, ["name", "description"], Lower(Str(search)), false) == [];
      }
    }
  }

  /** The definitions `find_achievements` searches. */
  function Candidates(db: Db, package: Option<Record>): (r: seq<Record>)
    requires package.Some? ==> package.value.kind == Games
    ensures Subsequence(r, Records(db, AchievementDefinitions))
    ensures package.None? ==> r == Records(db, AchievementDefinitions)
    ensures package.Some? ==> forall d :: d in r <==>
      d in Records(db, AchievementDefinitions) && SqlEquals(Get(d, "game_id"), Str(Get(package.value, "_id")))
  {
    if package.Some? then AchDefsByGame(db, package.value)
    else SubsequenceRefl(Records(db, AchievementDefinitions)); Records(db, AchievementDefinitions)
  }
}
