/** gpau_objects/structure.py: the nine record classes decoded positionally from a
    table row, their field enumeration, the per-class transform registry
    (`apply_changers`), the type and state predicates and the `print_string` summaries. */
module Structure {
  import opened Outcomes
  import opened Values
  import opened Seqs
  import opened Funcs

  /** One record class per table; the constructors are named after the tables. */
  datatype Kind =
    | AchievementPendingOps | AchievementDefinitions | AchievementInstances
    | ClientContexts | GameInstances | GamePlayerIds | Games | Images | Players

  /** The fields each constructor assigns, in assignment order. Slot `i` of a row
      feeds field `i`. Each class's names sit behind a function of the position,
      so that a proof about one class never unfolds the other classes' lists. */
  function FieldNames(k: Kind): (names: seq<string>)
    ensures |names| == Arity(k)
  {
    match k
    case AchievementPendingOps => seq(9, i requires 0 <= i < 9 => PendingOpField(i))
    case AchievementDefinitions => seq(14, i requires 0 <= i < 14 => DefinitionField(i))
    case AchievementInstances => seq(8, i requires 0 <= i < 8 => InstanceField(i))
    case ClientContexts => seq(6, i requires 0 <= i < 6 => ClientContextField(i))
    case GameInstances => seq(11, i requires 0 <= i < 11 => GameInstanceField(i))
    case GamePlayerIds => seq(6, i requires 0 <= i < 6 => GamePlayerIdField(i))
    case Games => seq(40, i requires 0 <= i < 40 => GameField(i))
    case Images => seq(5, i requires 0 <= i < 5 => ImageField(i))
    case Players => seq(36, i requires 0 <= i < 36 => PlayerField(i))
  }

  function PendingOpField(i: nat): string
    requires i < 9
    ensures i == 0 ==> PendingOpField(i) == "_id"
  {
    ["_id", "client_context_id", "external_achievement_id", "achievement_type", "new_state",
     "steps_to_increment", "min_steps_to_set", "external_game_id", "external_player_id"][i]
  }

  function DefinitionField(i: nat): string
    requires i < 14
    ensures i == 0 ==> DefinitionField(i) == "_id"
    ensures i == 1 ==> DefinitionField(i) == "game_id"
    ensures i == 2 ==> DefinitionField(i) == "external_achievement_id"
  {
    ["_id", "game_id", "external_achievement_id", "type", "name", "description",
     "unlocked_icon_image_id", "revealed_icon_image_id", "total_steps",
     "formatted_total_steps", "initial_state", "sorting_rank", "definition_xp_value",
     "rarity_percent"][i]
  }

  function InstanceField(i: nat): string
    requires i < 8
    ensures i == 0 ==> InstanceField(i) == "_id"
    ensures i == 1 ==> InstanceField(i) == "definition_id"
  {
    ["_id", "definition_id", "player_id", "state", "current_steps",
     "formatted_current_steps", "last_updated_timestamp", "instance_xp_value"][i]
  }

  function ClientContextField(i: nat): string
    requires i < 6
    ensures i == 0 ==> ClientContextField(i) == "_id"
    ensures i == 1 ==> ClientContextField(i) == "package_name"
  {
    ["_id", "package_name", "package_uid", "account_name", "account_type", "is_games_lite"][i]
  }

  function GameInstanceField(i: nat): string
    requires i < 11
    ensures i == 0 ==> GameInstanceField(i) == "_id"
    ensures i == 1 ==> GameInstanceField(i) == "instance_game_id"
    ensures i == 6 ==> GameInstanceField(i) == "package_name"
    ensures i == 8 ==> GameInstanceField(i) == "installed"
  {
    ["_id", "instance_game_id", "real_time_support", "turn_based_support", "platform_type",
     "instance_display_name", "package_name", "piracy_check", "installed", "preferred",
     "gamepad_support"][i]
  }

  function GamePlayerIdField(i: nat): string
    requires i < 6
    ensures i == 0 ==> GamePlayerIdField(i) == "_id"
  {
    ["_id", "game_player_ids_external_player_id", "game_player_ids_external_game_id",
     "game_player_ids_external_game_player_id",
     "game_player_ids_external_primary_player_id", "game_player_ids_created_in_epoch"][i]
  }

  function GameField(i: nat): string
    requires i < 40
    ensures i == 0 ==> GameField(i) == "_id"
    ensures i == 1 ==> GameField(i) == "external_game_id"
  {
    ["_id", "external_game_id", "display_name", "primary_category", "secondary_category",
     "developer_name", "game_description", "game_icon_image_id", "game_hi_res_image_id",
     "featured_image_id", "screenshot_image_ids", "screenshot_image_widths",
     "screenshot_image_heights", "video_url", "play_enabled_game",
     "last_played_server_time", "last_connection_local_time", "last_synced_local_time",
     "metadata_version", "sync_token", "metadata_sync_requested", "target_instance",
     "gameplay_acl_status", "availability", "owned", "achievement_total_count",
     "leaderboard_count", "price_micros", "formatted_price", "full_price_micros",
     "formatted_full_price", "explanation", "description_snippet", "starRating",
     "ratingsCount", "muted", "identity_sharing_confirmed", "snapshots_enabled",
     "theme_color", "lastUpdatedTimestampMillis"][i]
  }

  function ImageField(i: nat): string
    requires i < 5
    ensures i == 0 ==> ImageField(i) == "_id"
  {
    ["_id", "url", "local", "filesize", "download_timestamp"][i]
  }

  function PlayerField(i: nat): string
    requires i < 36
    ensures i == 0 ==> PlayerField(i) == "_id"
  {
    ["_id", "external_player_id", "profile_name", "profile_icon_image_id",
     "profile_hi_res_image_id", "last_updated", "is_in_circles", "current_xp_total",
     "current_level", "current_level_min_xp", "current_level_max_xp", "next_level",
     "next_level_max_xp", "last_level_up_timestamp", "player_title", "has_all_public_acls",
     "has_debug_access", "is_profile_visible", "most_recent_activity_timestamp",
     "most_recent_external_game_id", "most_recent_game_name", "most_recent_game_icon_id",
     "most_recent_game_hi_res_id", "most_recent_game_featured_id", "gamer_tag", "real_name",
     "banner_image_landscape_id", "banner_image_portrait_id", "total_unlocked_achievements",
     "play_together_friend_status", "play_together_nickname",
     "play_together_invitation_nickname", "profile_creation_timestamp",
     "nickname_abuse_report_token", "friends_list_visibility", "always_auto_sign_in"][i]
  }


  /** Where ClientContext keeps the account name that its transform masks. */
  const CC_ACCOUNT_NAME: nat := 3

  /** The number of fields of each class. */
  function Arity(k: Kind): nat
  {
    match k
    case AchievementPendingOps => 9
    case AchievementDefinitions => 14
    case AchievementInstances => 8
    case ClientContexts => 6
    case GameInstances => 11
    case GamePlayerIds => 6
    case Games => 40
    case Images => 5
    case Players => 36
  }

  /** Position of the first `n` in `names`, or `|names|` when absent. */
  function IndexOf(names: seq<string>, n: string): (i: nat)
    ensures i <= |names|
    ensures i < |names| ==> names[i] == n
    ensures i == |names| <==> n !in names
  {
    if names == [] then 0
    else if names[0] == n then 0
    else 1 + IndexOf(names[1..], n)
  }

  // ---------------------------------------------------------------------------
  // Field enumeration (Wrapper.attrs / values / dict)

  const HIDDEN_ATTRS: seq<string> := ["_changers", "_args", "_hidden_attrs"]

  /** Starts or ends with a double underscore. */
  predicate Dunder(n: string)
  {
    |n| >= 2 && ((n[0] == '_' && n[1] == '_') || (n[|n| - 1] == '_' && n[|n| - 2] == '_'))
  }

  /** The filter `attrs()` applies to the instance dictionary's keys. */
  predicate Listed(n: string)
  {
    !Dunder(n) && n !in HIDDEN_ATTRS
  }

  datatype Changer = ToDatetime | MaskAccountName

  /** The transform registry: `_changers` of the two classes that set one. */
  function Changers(k: Kind): seq<(string, Changer)>
  {
    match k
    case AchievementInstances => [("last_updated_timestamp", ToDatetime)]
    case ClientContexts => [("account_name", MaskAccountName)]
    case _ => []
  }

  /** The keys the constructor adds to the instance's `__dict__` before the
      fields: `_args`, then `_changers` where the class assigns one. */
  function Bookkeeping(k: Kind): seq<string>
  {
    ["_args"] + (if Changers(k) != [] then ["_changers"] else [])
  }

  /** Keys of a fresh instance's `__dict__`, in insertion order. */
  function InstanceKeys(k: Kind): seq<string>
  {
    Bookkeeping(k) + FieldNames(k)
  }

  /** Every field name survives the `attrs()` filter. */
  lemma FieldNamesListed(k: Kind)
    ensures forall i :: 0 <= i < |FieldNames(k)| ==> Listed(FieldNames(k)[i])
  {
    ListedAchievementPendingOps();
    ListedAchievementDefinitions();
    ListedAchievementInstances();
    ListedClientContexts();
    ListedGameInstances();
    ListedGamePlayerIds();
    ListedGames();
    ListedImages();
    ListedPlayers();
  }

  lemma ListedAchievementPendingOps()
    ensures forall i | 0 <= i < 9 :: Listed(PendingOpField(i))
  {
  }

  lemma ListedAchievementDefinitions()
    ensures forall i | 0 <= i < 14 :: Listed(DefinitionField(i))
  {
    ListedAchievementDefinitionsFrom0();
    ListedAchievementDefinitionsFrom10();
  }

  lemma ListedAchievementDefinitionsFrom0()
    ensures forall i | 0 <= i < 10 :: Listed(DefinitionField(i))
  {
  }

  lemma ListedAchievementDefinitionsFrom10()
    ensures forall i | 10 <= i < 14 :: Listed(DefinitionField(i))
  {
  }

  lemma ListedAchievementInstances()
    ensures forall i | 0 <= i < 8 :: Listed(InstanceField(i))
  {
  }

  lemma ListedClientContexts()
    ensures forall i | 0 <= i < 6 :: Listed(ClientContextField(i))
  {
  }

  lemma ListedGameInstances()
    ensures forall i | 0 <= i < 11 :: Listed(GameInstanceField(i))
  {
    ListedGameInstancesFrom0();
    ListedGameInstancesFrom10();
  }

  lemma ListedGameInstancesFrom0()
    ensures forall i | 0 <= i < 10 :: Listed(GameInstanceField(i))
  {
  }

  lemma ListedGameInstancesFrom10()
    ensures forall i | 10 <= i < 11 :: Listed(GameInstanceField(i))
  {
  }

  lemma ListedGamePlayerIds()
    ensures forall i | 0 <= i < 6 :: Listed(GamePlayerIdField(i))
  {
  }

  lemma ListedGames()
    ensures forall i | 0 <= i < 40 :: Listed(GameField(i))
  {
    ListedGamesFrom0();
    ListedGamesFrom10();
    ListedGamesFrom20();
    ListedGamesFrom30();
  }

  lemma ListedGamesFrom0()
    ensures forall i | 0 <= i < 10 :: Listed(GameField(i))
  {
  }

  lemma ListedGamesFrom10()
    ensures forall i | 10 <= i < 20 :: Listed(GameField(i))
  {
  }

  lemma ListedGamesFrom20()
    ensures forall i | 20 <= i < 30 :: Listed(GameField(i))
  {
  }

  lemma ListedGamesFrom30()
    ensures forall i | 30 <= i < 40 :: Listed(GameField(i))
  {
  }

  lemma ListedImages()
    ensures forall i | 0 <= i < 5 :: Listed(ImageField(i))
  {
  }

  lemma ListedPlayers()
    ensures forall i | 0 <= i < 36 :: Listed(PlayerField(i))
  {
    ListedPlayersFrom0();
    ListedPlayersFrom10();
    ListedPlayersFrom20();
    ListedPlayersFrom30();
  }

  lemma ListedPlayersFrom0()
    ensures forall i | 0 <= i < 10 :: Listed(PlayerField(i))
  {
  }

  lemma ListedPlayersFrom10()
    ensures forall i | 10 <= i < 20 :: Listed(PlayerField(i))
  {
  }

  lemma ListedPlayersFrom20()
    ensures forall i | 20 <= i < 30 :: Listed(PlayerField(i))
  {
  }

  lemma ListedPlayersFrom30()
    ensures forall i | 30 <= i < 36 :: Listed(PlayerField(i))
  {
  }


  /** Dropping keys that fail the filter and keeping keys that pass it. */
  lemma FilterKeys(bk: seq<string>, names: seq<string>)
    requires forall n <- bk :: !Listed(n)
    requires forall i :: 0 <= i < |names| ==> Listed(names[i])
    ensures Filter(bk + names, Listed) == names
  {
    FilterConcat(bk, names, Listed);
    FilterAll(names, Listed);
  }

  /** `attrs()`: the instance's keys minus dunder names and the hidden list. The
      bookkeeping keys drop out and every field, `_id` first, stays in order. */
  function Attrs(k: Kind): (r: seq<string>)
    ensures r == FieldNames(k)
  {
    FieldNamesListed(k);
    BookkeepingHidden(k);
    FilterKeys(Bookkeeping(k), FieldNames(k));
    Filter(InstanceKeys(k), Listed)
  }

  lemma BookkeepingHidden(k: Kind)
    ensures forall n <- Bookkeeping(k) :: !Listed(n)
  {
  }

  /** No hidden name is a field, and `_id` is the first field of every class. */
  lemma AttrsKeepIdDropHidden(k: Kind)
    ensures IndexOf(Attrs(k), "_id") == 0
    ensures forall h <- HIDDEN_ATTRS :: h !in Attrs(k)
  {
    var names := Attrs(k);
    FieldNamesListed(k);
    NoHiddenAmongListed(names);
    IdFirst(k);
  }

  lemma IdFirst(k: Kind)
    ensures IndexOf(FieldNames(k), "_id") == 0
  {
  }

  lemma NoHiddenAmongListed(names: seq<string>)
    requires forall i :: 0 <= i < |names| ==> Listed(names[i])
    ensures forall h <- HIDDEN_ATTRS :: h !in names
  {
    forall h <- HIDDEN_ATTRS
      ensures h !in names
    {
      assert !Listed(h);
    }
  }

  // ---------------------------------------------------------------------------
  // Records

  /** A materialised row: its class, its field values in `attrs()` order, and the
      raw constructor arguments kept in the hidden `_args`. */
  datatype Record = Record(kind: Kind, fields: seq<Value>, args: seq<Value>)

  /** Every field of the class has a value. */
  predicate WellFormed(r: Record)
  {
    |r.fields| == Arity(r.kind)
  }

  /** `Wrapper.get_arg(index, lst)`: `lst[index]` when `index < len(lst)`, else None. */
  function WrapperGetArg(index: int, lst: seq<Value>): (r: Result<Value>)
    ensures 0 <= index ==> r == Ok(Slot(index, lst))
  {
    if index < |lst| then PyIndex(lst, index) else Ok(VNone)
  }

  /** `Wrapper.get_arg` and `funcs.get_arg` agree on every index, negative ones included. */
  lemma GetArgAgrees(index: int, lst: seq<Value>)
    ensures WrapperGetArg(index, lst) == GetArg(index, lst)
  {
  }

  /** The constructors: field `i` takes `get_arg(i, args)`. A short row leaves its
      trailing fields None instead of failing; a long row's extra slots are ignored. */
  function Decode(k: Kind, args: seq<Value>): (r: Record)
    ensures WellFormed(r) && r.kind == k && r.args == args
    ensures forall i :: 0 <= i < |args| && i < |r.fields| ==> r.fields[i] == args[i]
    ensures forall i :: |args| <= i < |r.fields| ==> r.fields[i] == VNone
  {
    Record(k, seq(Arity(k), i requires 0 <= i => WrapperGetArg(i, args).value), args)
  }

  /** Field `i` of a record, None past the end. */
  function At(r: Record, i: nat): Value
  {
    Slot(i, r.fields)
  }

  /** `getattr(record, name)` for one of the record's own fields. */
  function Get(r: Record, name: string): Value
  {
    At(r, IndexOf(FieldNames(r.kind), name))
  }

  /** `values()`: the value of each `attrs()` name, in that order. */
  function ValueList(r: Record): (vs: seq<Value>)
    requires WellFormed(r)
    ensures |vs| == |Attrs(r.kind)| == Arity(r.kind)
    ensures forall i :: 0 <= i < |vs| ==> vs[i] == At(r, i)
  {
    r.fields
  }

  /** `dict()`: `attrs()` paired with `values()`, in the same order. */
  function Dict(r: Record): (d: seq<(string, Value)>)
    requires WellFormed(r)
    ensures |d| == |Attrs(r.kind)|
    ensures forall i :: 0 <= i < |d| ==> d[i] == (Attrs(r.kind)[i], ValueList(r)[i])
  {
    seq(|Attrs(r.kind)|, i requires 0 <= i < |Attrs(r.kind)| => (Attrs(r.kind)[i], ValueList(r)[i]))
  }

  /** Decoding a record's own values rebuilds the same `dict()`: the round trip
      that `apply_changers` relies on. */
  lemma {:induction false} DecodeValuesRoundTrip(r: Record)
    requires WellFormed(r)
    ensures Decode(r.kind, ValueList(r)).fields == r.fields
    ensures Dict(Decode(r.kind, ValueList(r))) == Dict(r)
  {
    var d := Decode(r.kind, ValueList(r));
    assert forall i :: 0 <= i < |r.fields| ==> d.fields[i] == r.fields[i];
  }

  // ---------------------------------------------------------------------------
  // Transforms (apply_changers)

  /** Python `x.find(c)`: first position of `c`, or -1. */
  function Find(x: string, c: char): (r: int)
    ensures -1 <= r < |x|
    ensures r >= 0 ==> x[r] == c
  {
    if x == [] then -1
    else if x[0] == c then 0
    else var r := Find(x[1..], c); if r == -1 then -1 else r + 1
  }

  /** `Find` gives the first occurrence, and -1 only when there is none. */
  lemma {:induction false} FindFirst(x: string, c: char)
    ensures Find(x, c) >= 0 ==> forall k :: 0 <= k < Find(x, c) ==> x[k] != c
    ensures Find(x, c) == -1 <==> c !in x
    decreases |x|
  {
    if x != [] && x[0] != c {
      FindFirst(x[1..], c);
      assert x == [x[0]] + x[1..];
    }
  }

  /** Python `x[:e]`. */
  function PySliceTo(x: string, e: int): (r: string)
    ensures 0 <= e <= |x| ==> r == x[..e]
    ensures e >= |x| ==> r == x
  {
    if e >= 0 then x[..if e < |x| then e else |x|]
    else x[..if |x| + e > 0 then |x| + e else 0]
  }

  /** Python `x[s:]`. */
  function PySliceFrom(x: string, s: int): (r: string)
    ensures 0 <= s <= |x| ==> r == x[s..]
    ensures s < 0 && -|x| <= s ==> r == x[|x| + s..]
  {
    if s >= 0 then x[if s < |x| then s else |x|..]
    else x[if |x| + s > 0 then |x| + s else 0..]
  }

  /** Python `"*" * n`: empty for n <= 0. */
  function Stars(n: int): (r: string)
    ensures |r| == if n > 0 then n else 0
    ensures forall k :: 0 <= k < |r| ==> r[k] == '*'
    decreases n
  {
    if n <= 0 then "" else "*" + Stars(n - 1)
  }

  /** The ClientContext transform of `account_name`: the first two characters,
      `len(x) - x.find('@') - 2` asterisks, then the text from two characters
      before the `@` on. */
  function Mask(x: string): string
  {
    MaskAround(x, Find(x, '@'))
  }

  /** The mask for an `@` found at index `at` (-1 when there is none). */
  function MaskAround(x: string, at: int): string
  {
    PySliceTo(x, 2) + Stars(|x| - at - 2) + PySliceFrom(x, at - 2)
  }

  lemma MaskAroundShape(x: string, at: int)
    requires 2 <= at < |x|
    ensures MaskAround(x, at) == x[..2] + Stars(|x| - at - 2) + x[at - 2..]
  {
    assert PySliceTo(x, 2) == x[..2];
    assert PySliceFrom(x, at - 2) == x[at - 2..];
  }

  /** With the `@` at index 2 or later the mask keeps the first two characters,
      then `len(x) - at - 2` asterisks (none if that is negative), then the text
      from two characters before the `@` on. */
  lemma MaskWithAt(x: string, at: int)
    requires at == Find(x, '@') && at >= 2
    ensures Mask(x) == x[..2] + Stars(|x| - at - 2) + x[at - 2..]
  {
    MaskAroundShape(x, at);
  }

  lemma MaskAroundEnds(x: string, at: int)
    requires 2 <= at < |x|
    ensures IsPrefix(x[..2], MaskAround(x, at))
    ensures IsSuffix(x[at..], MaskAround(x, at))
  {
    MaskAroundShape(x, at);
    var stars := Stars(|x| - at - 2);
    var tail := x[at - 2..];
    PrefixOfConcat(x[..2], stars + tail);
    assert x[..2] + stars + tail == x[..2] + (stars + tail);
    assert tail[2..] == x[at..];
    SuffixOfConcat(x[..2] + stars, tail, 2);
  }

  /** So the mask opens with the first two characters of the name and closes
      with the whole domain part, `@` included. */
  lemma MaskKeepsEnds(x: string, at: int)
    requires at == Find(x, '@') && at >= 2
    ensures IsPrefix(x[..2], Mask(x))
    ensures IsSuffix(x[at..], Mask(x))
  {
    MaskAroundEnds(x, at);
  }

  lemma PrefixOfConcat(a: string, b: string)
    ensures IsPrefix(a, a + b)
  {
    assert (a + b)[..|a|] == a;
  }

  lemma SuffixOfConcat(a: string, b: string, n: nat)
    requires n <= |b|
    ensures IsSuffix(b[n..], a + b)
  {
    assert (a + b)[|a + b| - |b[n..]|..] == b[n..];
  }

  /** Without an `@` the mask shows the first two and the last three characters
      around `len(x) - 1` asterisks. */
  lemma MaskWithoutAt(x: string)
    requires Find(x, '@') == -1 && |x| >= 3
    ensures Mask(x) == x[..2] + Stars(|x| - 1) + x[|x| - 3..]
  {
    assert PySliceTo(x, 2) == x[..2];
    assert PySliceFrom(x, -3) == x[|x| - 3..];
  }

  /** Runs one registered transform on a value. The datetime conversion is left
      to the caller as `stamp` (None: the conversion raises); the mask needs a
      string and raises TypeError on anything else. */
  function RunChanger(c: Changer, v: Value, stamp: Value -> Option<Value>): (r: Result<Value>)
    ensures c == MaskAccountName ==> (r.Ok? <==> v.VStr?)
    ensures c == MaskAccountName && v.VStr? ==> r == Ok(VStr(Mask(v.s)))
    ensures c == ToDatetime ==> (r.Ok? <==> stamp(v).Some?)
    ensures !r.Abort?
  {
    match c
    case ToDatetime =>
      (match stamp(v)
       case Some(w) => Ok(w)
       case None => Crash("TypeError: datetime.fromtimestamp"))
    case MaskAccountName =>
      (match v
       case VStr(x) => Ok(VStr(Mask(x)))
       case _ => Crash("TypeError: account_name is not a string"))
  }

  /** Whether registry entry `name` is applied: it is a key of `dict()` (whose
      keys are `names`) and it is requested. */
  predicate Chosen(names: seq<string>, name: string, subset: seq<string>)
  {
    name in names && name in subset
  }

  /** One turn of the loop in `apply_changers`: `d[n] = f(d[n])` when chosen. */
  function ChangeStep(names: seq<string>, d: seq<Value>, entry: (string, Changer), subset: seq<string>,
                      stamp: Value -> Option<Value>): (r: Result<seq<Value>>)
    requires |d| == |names|
    ensures r.Ok? ==> |r.value| == |d|
    ensures !Chosen(names, entry.0, subset) ==> r == Ok(d)
    ensures Chosen(names, entry.0, subset) && r.Ok? ==>
      r.value == d[IndexOf(names, entry.0) := r.value[IndexOf(names, entry.0)]]
  {
    if Chosen(names, entry.0, subset) then
      var j := IndexOf(names, entry.0);
      match RunChanger(entry.1, d[j], stamp)
      case Ok(v) => Ok(d[j := v])
      case Abort(m) => Abort(m)
      case Crash(m) => Crash(m)
    else Ok(d)
  }

  /** The rest of the loop, from registry entry `cs[0]` on. */
  function ChangeFrom(names: seq<string>, d: seq<Value>, cs: seq<(string, Changer)>, subset: seq<string>,
                      stamp: Value -> Option<Value>): (r: Result<seq<Value>>)
    requires |d| == |names|
    ensures r.Ok? ==> |r.value| == |d|
    decreases |cs|
  {
    if cs == [] then Ok(d)
    else
      match ChangeStep(names, d, cs[0], subset, stamp)
      case Ok(d1) => ChangeFrom(names, d1, cs[1..], subset, stamp)
      case Abort(m) => Abort(m)
      case Crash(m) => Crash(m)
  }

  /** The names `apply_changers` transforms: None means every registered name. */
  function Requested(k: Kind, subset: Option<seq<string>>): (r: seq<string>)
    ensures subset.None? ==> forall e <- Changers(k) :: e.0 in r
    ensures subset.Some? ==> r == subset.value
  {
    match subset
    case None => Map(Changers(k), (e: (string, Changer)) => e.0)
    case Some(names) => names
  }

  /** The new values `apply_changers` computes for a record. */
  function Changed(r: Record, subset: Option<seq<string>>, stamp: Value -> Option<Value>): Result<seq<Value>>
    requires WellFormed(r)
  {
    ChangeFrom(Attrs(r.kind), r.fields, Changers(r.kind), Requested(r.kind, subset), stamp)
  }

  /** `apply_changers(subset)`: copies `dict()`, overwrites each registered and
      requested field with its transform, and builds a fresh record of the same
      class from the resulting values. The receiver is a value and stays as it was. */
  method ApplyChangers(r: Record, subset: Option<seq<string>>, stamp: Value -> Option<Value>)
    returns (res: Result<Record>)
    requires WellFormed(r)
    ensures res.Ok? <==> Changed(r, subset, stamp).Ok?
    ensures res.Ok? ==>
      && res.value.kind == r.kind && WellFormed(res.value)
      && res.value.fields == Changed(r, subset, stamp).value
      && res.value.args == res.value.fields
  {
    var names := Attrs(r.kind);
    var wanted := Requested(r.kind, subset);
    var cs := Changers(r.kind);
    var d := ValueList(r);
    var i := 0;
    while i < |cs|
      invariant 0 <= i <= |cs|
      invariant |d| == |names|
      invariant ChangeFrom(names, d, cs[i..], wanted, stamp) == ChangeFrom(names, r.fields, cs, wanted, stamp)
    {
      assert cs[i..][0] == cs[i] && cs[i..][1..] == cs[i + 1..];
      var n := cs[i].0;
      if n in names && n in wanted {
        var j := IndexOf(names, n);
        var v := RunChanger(cs[i].1, d[j], stamp);
        if !v.Ok? {
          return Crash(v.reason);
        }
        d := d[j := v.value];
      }
      i := i + 1;
    }
    res := Ok(Decode(r.kind, d));
  }

  /** A registry walk that chooses nothing returns its input. */
  lemma {:induction false} ChangeFromNothingChosen(names: seq<string>, d: seq<Value>, cs: seq<(string, Changer)>,
                                                   subset: seq<string>, stamp: Value -> Option<Value>)
    requires |d| == |names|
    requires forall e <- cs :: !Chosen(names, e.0, subset)
    ensures ChangeFrom(names, d, cs, subset, stamp) == Ok(d)
    decreases |cs|
  {
    if cs != [] {
      assert cs[0] in cs;
      ChangeFromNothingChosen(names, d, cs[1..], subset, stamp);
    }
  }

  /** `apply_changers([])` hands back a copy whose `dict()` equals the receiver's. */
  lemma ApplyNothingIsCopy(r: Record, stamp: Value -> Option<Value>)
    requires WellFormed(r)
    ensures Changed(r, Some([]), stamp) == Ok(r.fields)
    ensures Dict(Decode(r.kind, r.fields)) == Dict(r)
  {
    ChangeFromNothingChosen(Attrs(r.kind), r.fields, Changers(r.kind), [], stamp);
    DecodeValuesRoundTrip(r);
  }

  /** A position that no chosen registry entry names comes through unchanged. */
  lemma {:induction false} ChangeFromKeepsOthers(names: seq<string>, d: seq<Value>, cs: seq<(string, Changer)>,
                                                 subset: seq<string>, stamp: Value -> Option<Value>, i: nat)
    requires |d| == |names| && i < |d|
    requires ChangeFrom(names, d, cs, subset, stamp).Ok?
    requires forall e <- cs :: Chosen(names, e.0, subset) ==> IndexOf(names, e.0) != i
    ensures ChangeFrom(names, d, cs, subset, stamp).value[i] == d[i]
    decreases |cs|
  {
    if cs != [] {
      assert cs[0] in cs;
      var step := ChangeStep(names, d, cs[0], subset, stamp);
      assert step.Ok?;
      assert step.value[i] == d[i];
      ChangeFromKeepsOthers(names, step.value, cs[1..], subset, stamp, i);
    }
  }

  /** Only registered, requested fields change: every other field of the copy
      equals the receiver's. */
  lemma OnlyChosenFieldsChange(r: Record, subset: Option<seq<string>>, stamp: Value -> Option<Value>, i: nat)
    requires WellFormed(r) && i < |r.fields|
    requires Changed(r, subset, stamp).Ok?
    requires forall e <- Changers(r.kind) :: e.0 in Requested(r.kind, subset) ==> IndexOf(FieldNames(r.kind), e.0) != i
    ensures Changed(r, subset, stamp).value[i] == r.fields[i]
  {
    ChangeFromKeepsOthers(Attrs(r.kind), r.fields, Changers(r.kind), Requested(r.kind, subset), stamp, i);
  }

  lemma AccountNamePosition()
    ensures IndexOf(FieldNames(ClientContexts), "account_name") == CC_ACCOUNT_NAME
  {
    var names := FieldNames(ClientContexts);
    assert names[CC_ACCOUNT_NAME] == "account_name";
    assert names[0] != "account_name" && names[1] != "account_name" && names[2] != "account_name";
    IndexOfAt(names, "account_name", CC_ACCOUNT_NAME);
  }

  /** `n` first occurs at `j`. */
  lemma {:induction false} IndexOfAt(names: seq<string>, n: string, j: nat)
    requires j < |names| && names[j] == n
    requires forall i | 0 <= i < j :: names[i] != n
    ensures IndexOf(names, n) == j
  {
    if j > 0 {
      IndexOfAt(names[1..], n, j - 1);
    }
  }

  /** A registry of one mask entry, requested and naming a string field,
      masks exactly that field. */
  lemma {:induction false} MaskEntry(names: seq<string>, d: seq<Value>, subset: seq<string>,
                                     stamp: Value -> Option<Value>)
    requires |d| == |names|
    requires IndexOf(names, "account_name") < |names| && "account_name" in subset
    requires d[IndexOf(names, "account_name")].VStr?
    ensures ChangeFrom(names, d, [("account_name", MaskAccountName)], subset, stamp)
      == Ok(d[IndexOf(names, "account_name") := VStr(Mask(d[IndexOf(names, "account_name")].s))])
  {
    var cs: seq<(string, Changer)> := [("account_name", MaskAccountName)];
    var e := cs[0];
    assert cs[1..] == [];
    assert Chosen(names, e.0, subset);
  }

  /** Transforming a ClientContext whose account name is a string masks that
      name and leaves every other field. */
  lemma MaskOnClientContext(r: Record, stamp: Value -> Option<Value>)
    requires WellFormed(r) && r.kind == ClientContexts
    requires r.fields[CC_ACCOUNT_NAME].VStr?
    ensures Changed(r, Some(["account_name"]), stamp)
      == Ok(r.fields[CC_ACCOUNT_NAME := VStr(Mask(r.fields[CC_ACCOUNT_NAME].s))])
  {
    AccountNamePosition();
    MaskEntry(Attrs(ClientContexts), r.fields, ["account_name"], stamp);
  }

  // ---------------------------------------------------------------------------
  // Type and state predicates

  predicate IsNormal(d: Record) { Get(d, "type") == VInt(0) }

  predicate IsIncremental(d: Record) { Get(d, "type") == VInt(1) }

  predicate IsSecret(d: Record) { Get(d, "initial_state") == VInt(2) }

  predicate IsUnlocked(i: Record) { Get(i, "state") == VInt(0) }

  /** `state > 0`: Python refuses to order None or a string against 0. */
  function IsLocked(i: Record): (r: Result<bool>)
    ensures r.Ok? <==> Get(i, "state").VInt?
    ensures r == Ok(true) <==> (Get(i, "state").VInt? && Get(i, "state").i > 0)
  {
    match Get(i, "state")
    case VInt(n) => Ok(n > 0)
    case _ => Crash("TypeError: '>' not supported")
  }

  /** An instance is never both unlocked and locked, and a definition never both
      normal and incremental. */
  lemma PredicatesExclusive(d: Record, i: Record)
    ensures IsUnlocked(i) ==> IsLocked(i) == Ok(false)
    ensures IsLocked(i) == Ok(true) ==> !IsUnlocked(i)
    ensures !(IsNormal(d) && IsIncremental(d))
  {
  }

  // ---------------------------------------------------------------------------
  // Summaries (print_string)

  const SEP: string := " : "

  /** The `[NOR]`/`[INC]`/`[NOR|SEC]`/`[INC|SEC]` tag of a definition summary:
      `[INC` or `[NOR`, then `|SEC]` or `]`. */
  function TagOf(incremental: bool, secret: bool): (t: string)
    ensures t in ["[NOR]", "[INC]", "[NOR|SEC]", "[INC|SEC]"]
    ensures t[1] == (if incremental then 'I' else 'N')
    ensures |t| == (if secret then 9 else 5)
  {
    var head := if incremental then "[INC" else "[NOR";
    var t := head + (if secret then "|SEC]" else "]");
    assert t[1] == head[1];
    assert "[INC" + "|SEC]" == "[INC|SEC]" && "[NOR" + "|SEC]" == "[NOR|SEC]";
    assert "[INC" + "]" == "[INC]" && "[NOR" + "]" == "[NOR]";
    t
  }

  /** The tag of a definition; every type other than 1 shows as NOR. */
  function Tag(d: Record): string
  {
    TagOf(IsIncremental(d), IsSecret(d))
  }

  /** The name/description cut of `print_string`: with a nonzero pad a text longer
      than the pad becomes its first `pad` characters plus "..."; `len()` of a
      non-string raises. With pad 0 the value is printed as it is. */
  function Clip(v: Value, pad: int): (r: Result<string>)
    ensures pad == 0 ==> r == Ok(Str(v))
    ensures pad != 0 ==> (r.Ok? <==> v.VStr?)
    ensures pad > 0 && v.VStr? && |v.s| > pad ==> r == Ok(v.s[..pad] + "...")
    ensures pad != 0 && v.VStr? && |v.s| <= pad ==> r == Ok(v.s)
  {
    if pad == 0 then Ok(Str(v))
    else match v
      case VStr(s) => Ok(if |s| > pad then PySliceTo(s, pad) + "..." else s)
      case _ => Crash("TypeError: object has no len()")
  }

  /** The line `AchievementDefinition.print_string` prints once its parts
      are rendered: tag, external id, name, description and the xp value
      followed by `xp`, joined by " : ". */
  function DefinitionLine(tag: string, ext: string, name: string, desc: string, xp: string): (r: string)
    ensures IsPrefix(tag + SEP, r) && IsSuffix(SEP + xp + "xp", r)
    ensures r == tag + SEP + ext + SEP + name + SEP + desc + SEP + xp + "xp"
  {
    var parts := [tag, ext, name, desc, xp + "xp"];
    JoinEnds(parts, SEP);
    assert SEP + xp + "xp" == SEP + parts[4];
    JoinFive(parts[0], parts[1], parts[2], parts[3], parts[4], SEP);
    Join(parts, SEP)
  }

  /** `AchievementDefinition.print_string(npad, dpad)`: the clipped name and
      description on the definition's line; a clip that raises ends it. */
  function DefinitionSummary(d: Record, npad: int, dpad: int): (r: Result<string>)
    ensures r.Ok? <==> Clip(Get(d, "name"), npad).Ok? && Clip(Get(d, "description"), dpad).Ok?
    ensures r.Ok? ==> IsPrefix(Tag(d) + SEP, r.value) && IsSuffix(SEP + Str(Get(d, "definition_xp_value")) + "xp", r.value)
    ensures r.Ok? ==>
      r.value == Tag(d) + SEP + Str(Get(d, "external_achievement_id")) + SEP + Clip(Get(d, "name"), npad).value + SEP
        + Clip(Get(d, "description"), dpad).value + SEP + Str(Get(d, "definition_xp_value")) + "xp"
    ensures !r.Abort?
  {
    var name := Clip(Get(d, "name"), npad);
    var desc := Clip(Get(d, "description"), dpad);
    if name.Crash? then Crash(name.reason)
    else if desc.Crash? then Crash(desc.reason)
    else if name.Ok? && desc.Ok? then
      Ok(DefinitionLine(Tag(d), Str(Get(d, "external_achievement_id")), name.value, desc.value,
                        Str(Get(d, "definition_xp_value"))))
    else Crash("unreachable")
  }

  /** `AchievementInstance.print_string()`. */
  function InstanceSummary(i: Record): (r: string)
    ensures IsPrefix(Str(Get(i, "definition_id")) + SEP, r)
    ensures IsSuffix(SEP + Str(Get(i, "instance_xp_value")), r)
    ensures r == Str(Get(i, "definition_id")) + SEP + Str(Get(i, "state")) + SEP + Str(Get(i, "current_steps")) + SEP
      + Str(Get(i, "instance_xp_value"))
  {
    var parts := [Str(Get(i, "definition_id")), Str(Get(i, "state")), Str(Get(i, "current_steps")),
                  Str(Get(i, "instance_xp_value"))];
    JoinEnds(parts, SEP);
    JoinFour(parts[0], parts[1], parts[2], parts[3], SEP);
    Join(parts, SEP)
  }

  /** `AchievementPendingOp.print_string()`. */
  function PendingOpSummary(p: Record): (r: string)
    ensures IsPrefix(Str(Get(p, "client_context_id")) + SEP, r)
    ensures IsSuffix(SEP + Str(Get(p, "external_player_id")), r)
    ensures r == Str(Get(p, "client_context_id")) + SEP + Str(Get(p, "external_achievement_id")) + SEP
      + Str(Get(p, "external_game_id")) + SEP + Str(Get(p, "external_player_id"))
  {
    var parts := [Str(Get(p, "client_context_id")), Str(Get(p, "external_achievement_id")),
                  Str(Get(p, "external_game_id")), Str(Get(p, "external_player_id"))];
    JoinEnds(parts, SEP);
    JoinFour(parts[0], parts[1], parts[2], parts[3], SEP);
    Join(parts, SEP)
  }

  /** `ClientContext.print_string()`. */
  function ClientContextSummary(c: Record): (r: string)
    ensures IsPrefix(Str(Get(c, "_id")) + SEP, r)
    ensures IsSuffix(SEP + Str(Get(c, "package_name")), r)
    ensures r == Str(Get(c, "_id")) + SEP + Str(Get(c, "package_name"))
  {
    var parts := [Str(Get(c, "_id")), Str(Get(c, "package_name"))];
    JoinEnds(parts, SEP);
    JoinTwo(parts[0], parts[1], SEP);
    Join(parts, SEP)
  }

  /** `Game.print_string(inst)`: the middle part is the developer, or the
      instance's package name when an instance is given. */
  function GameSummary(g: Record, inst: Option<Record>): (r: string)
    ensures IsPrefix(Str(Get(g, "external_game_id")) + SEP, r)
    ensures IsSuffix(SEP + Str(Get(g, "display_name")), r)
    ensures |r| == |Str(Get(g, "external_game_id"))| + |Str(Get(g, "display_name"))| + 2 * |SEP|
      + |Str(if inst.None? then Get(g, "developer_name") else Get(inst.value, "package_name"))|
    ensures r == Str(Get(g, "external_game_id")) + SEP
      + Str(if inst.None? then Get(g, "developer_name") else Get(inst.value, "package_name")) + SEP
      + Str(Get(g, "display_name"))
  {
    var middle := if inst.None? then Get(g, "developer_name") else Get(inst.value, "package_name");
    var parts := [Str(Get(g, "external_game_id")), Str(middle), Str(Get(g, "display_name"))];
    JoinEnds(parts, SEP);
    JoinThree(parts[0], parts[1], parts[2], SEP);
    Join(parts, SEP)
  }

  /** `Player.print_string()`. */
  function PlayerSummary(p: Record): (r: string)
    ensures IsPrefix(Str(Get(p, "external_player_id")) + SEP, r)
    ensures IsSuffix(SEP + "Level " + Str(Get(p, "current_level")), r)
    ensures r == Str(Get(p, "external_player_id")) + SEP + Str(Get(p, "profile_name")) + SEP
      + "Level " + Str(Get(p, "current_level"))
  {
    var parts := [Str(Get(p, "external_player_id")), Str(Get(p, "profile_name")),
                  "Level " + Str(Get(p, "current_level"))];
    JoinEnds(parts, SEP);
    assert SEP + "Level " + Str(Get(p, "current_level")) == SEP + parts[2];
    JoinThree(parts[0], parts[1], parts[2], SEP);
    Join(parts, SEP)
  }
}
