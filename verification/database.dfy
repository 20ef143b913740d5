/** gpau_objects/dbfile.py: the table behind each record class, the `select` and
    `search` queries over tables read in `_id` order, the in-memory
    `search_instances` filters, and the pending-op table, the one table the tool
    writes. */
module Database {
  import opened Outcomes
  import opened Values
  import opened Seqs
  import opened Structure

  /** One table row as SQLite returns it. */
  type Row = seq<Value>

  /** The database file: each table as `select * from <table> order by _id`
      returns it. */
  datatype Db = Db(
    pendingOps: seq<Row>, definitions: seq<Row>, instances: seq<Row>,
    clientContexts: seq<Row>, gameInstances: seq<Row>, gamePlayerIds: seq<Row>,
    games: seq<Row>, images: seq<Row>, players: seq<Row>)

  /** `__get_table_by_cls`: the table a record class is read from. Every class of
      the model has a table, so the source's error exit for an unmapped class
      cannot be reached here. */
  function TableName(k: Kind): string
  {
    match k
    case AchievementPendingOps => "achievement_pending_ops"
    case AchievementDefinitions => "achievement_definitions"
    case AchievementInstances => "achievement_instances"
    case ClientContexts => "client_contexts"
    case GameInstances => "game_instances"
    case GamePlayerIds => "game_player_ids"
    case Games => "games"
    case Images => "images"
    case Players => "players"
  }

  /** The rows of the table a class is read from. */
  function Rows(db: Db, k: Kind): seq<Row>
  {
    match k
    case AchievementPendingOps => db.pendingOps
    case AchievementDefinitions => db.definitions
    case AchievementInstances => db.instances
    case ClientContexts => db.clientContexts
    case GameInstances => db.gameInstances
    case GamePlayerIds => db.gamePlayerIds
    case Games => db.games
    case Images => db.images
    case Players => db.players
  }

  /** `[cls(*x) for x in res]`: a table's rows decoded as records of its class,
      in `_id` order. */
  function Records(db: Db, k: Kind): (rs: seq<Record>)
    ensures |rs| == |Rows(db, k)|
    ensures forall i :: 0 <= i < |rs| ==> rs[i] == Decode(k, Rows(db, k)[i])
  {
    Map(Rows(db, k), (row: Row) => Decode(k, row))
  }

  // ---------------------------------------------------------------------------
  // Results

  /** What the queries hand back: with `first`, the first hit or None; otherwise
      the list of hits, possibly empty. */
  datatype Hits = First(hit: Option<Record>) | All(hits: seq<Record>)

  /** `res[0] if first else res` when there is a hit, `None if first else []`
      when there is none. */
  function Pick(rs: seq<Record>, first: bool): Hits
  {
    if first then First(if |rs| > 0 then Some(rs[0]) else None) else All(rs)
  }

  // ---------------------------------------------------------------------------
  // select

  /** SQL `col = 'v'`: a NULL cell never matches; otherwise the cell's text must
      equal the quoted literal. */
  predicate SqlEquals(cell: Value, text: string)
  {
    cell != VNone && Str(cell) == text
  }

  /** SQL `col like '%v%'`: a NULL cell never matches; otherwise the literal must
      occur in the cell's text, ignoring ASCII case. */
  predicate SqlLike(cell: Value, text: string)
  {
    cell != VNone && Contains(Lower(text), Lower(Str(cell)))
  }

  /** A list argument of `select`, or `[]` when it is not a list. */
  function ListOr<T>(arg: Option<seq<T>>): seq<T>
  {
    if arg.Some? then arg.value else []
  }

  /** `zip(cols, values)`: pairs up to the shorter of the two. */
  function Zip(cols: seq<string>, values: seq<Value>): (cs: seq<(string, Value)>)
    ensures |cs| == if |cols| < |values| then |cols| else |values|
    ensures forall j :: 0 <= j < |cs| ==> cs[j] == (cols[j], values[j])
  {
    seq(if |cols| < |values| then |cols| else |values|,
        j requires 0 <= j < |cols| && j < |values| => (cols[j], values[j]))
  }

  /** One `and` clause of the query. */
  predicate ClauseHolds(r: Record, c: (string, Value), exact: bool)
  {
    if exact then SqlEquals(Get(r, c.0), Str(c.1)) else SqlLike(Get(r, c.0), Str(c.1))
  }

  /** `where 1=1 and ...`: every clause holds. */
  predicate SatisfiesAll(r: Record, cs: seq<(string, Value)>, exact: bool)
  {
    forall j | 0 <= j < |cs| :: ClauseHolds(r, cs[j], exact)
  }

  function SelectTest(cs: seq<(string, Value)>, exact: bool): Record -> bool
  {
    r => SatisfiesAll(r, cs, exact)
  }

  /** The rows a well-formed query returns, in `_id` order. */
  function Selected(db: Db, k: Kind, cs: seq<(string, Value)>, exact: bool): seq<Record>
  {
    Filter(Records(db, k), SelectTest(cs, exact))
  }

  /** A clause naming a column the table does not have. */
  predicate UnknownColumn(k: Kind, cs: seq<(string, Value)>)
  {
    exists j | 0 <= j < |cs| :: cs[j].0 !in FieldNames(k)
  }

  /** `select(cls, cols, values, first, exact)`. Two lists of different lengths
      are a fatal error; a non-list argument becomes `[]`; a clause on a column
      the table lacks makes SQLite raise. Otherwise the rows that satisfy every
      clause, in `_id` order. */
  function Select(db: Db, k: Kind, cols: Option<seq<string>>, values: Option<seq<Value>>,
                  first: bool, exact: bool): (res: Result<Hits>)
    ensures res.Abort? <==> cols.Some? && values.Some? && |cols.value| != |values.value|
    ensures res.Crash? <==> !res.Abort? && UnknownColumn(k, Zip(ListOr(cols), ListOr(values)))
    ensures res.Ok? ==> res.value == Pick(Selected(db, k, Zip(ListOr(cols), ListOr(values)), exact), first)
  {
    if cols.Some? && values.Some? && |cols.value| != |values.value| then
      Abort("Given cols doesn't have appropriate number of values")
    else
      var cs := Zip(ListOr(cols), ListOr(values));
      if UnknownColumn(k, cs) then Crash("sqlite3.OperationalError: no such column")
      else Ok(Pick(Selected(db, k, cs, exact), first))
  }

  /** A list result holds exactly the table's records that satisfy every clause,
      in table order. */
  lemma SelectAll(db: Db, k: Kind, cs: seq<(string, Value)>, exact: bool)
    ensures forall r :: r in Selected(db, k, cs, exact) <==> r in Records(db, k) && SatisfiesAll(r, cs, exact)
    ensures Subsequence(Selected(db, k, cs, exact), Records(db, k))
  {
    FilterIsSubsequence(Records(db, k), SelectTest(cs, exact));
  }

  /** A first-hit result is the earliest record in `_id` order that satisfies
      every clause, and None only when no record does. */
  lemma SelectFirst(db: Db, k: Kind, cs: seq<(string, Value)>, exact: bool)
    ensures Pick(Selected(db, k, cs, exact), true).hit.None? <==>
      forall r <- Records(db, k) :: !SatisfiesAll(r, cs, exact)
    ensures Pick(Selected(db, k, cs, exact), true).hit.Some? ==>
      exists i :: 0 <= i < |Records(db, k)|
        && Records(db, k)[i] == Pick(Selected(db, k, cs, exact), true).hit.value
        && SatisfiesAll(Records(db, k)[i], cs, exact)
        && forall j :: 0 <= j < i ==> !SatisfiesAll(Records(db, k)[j], cs, exact)
  {
    var rs := Records(db, k);
    var p := SelectTest(cs, exact);
    if Filter(rs, p) != [] {
      FilterFirst(rs, p);
      assert Filter(rs, p)[0] in Filter(rs, p);
    }
  }

  /** With no clauses, because either argument is missing or both are empty,
      every row comes back. */
  lemma SelectWithoutClauses(db: Db, k: Kind, cols: Option<seq<string>>, values: Option<seq<Value>>,
                             first: bool, exact: bool)
    requires cols.None? || values.None? || (cols.value == [] && values.value == [])
    ensures Select(db, k, cols, values, first, exact) == Ok(Pick(Records(db, k), first))
  {
    var cs := Zip(ListOr(cols), ListOr(values));
    assert cs == [];
    FilterAll(Records(db, k), SelectTest(cs, exact));
  }

  // ---------------------------------------------------------------------------
  // search

  /** `lower(col)='s'` or `lower(col) like '%s%'` against one cell; `lower` of
      NULL is NULL, which never matches. */
  predicate SearchCellHit(cell: Value, s: string, exact: bool)
  {
    cell != VNone && (if exact then Lower(Str(cell)) == s else Contains(s, Lower(Str(cell))))
  }

  /** `where (1=0 or ...)` over every column of the class. */
  predicate SearchHit(r: Record, s: string, exact: bool)
  {
    exists i | 0 <= i < |r.fields| :: SearchCellHit(r.fields[i], s, exact)
  }

  function SearchTest(s: string, exact: bool): Record -> bool
  {
    r => SearchHit(r, s, exact)
  }

  /** The records `search` returns: those with some column matching the
      lowercased term, in `_id` order. */
  function Searched(db: Db, k: Kind, term: Value, exact: bool): seq<Record>
  {
    Filter(Records(db, k), SearchTest(Lower(Str(term)), exact))
  }

  /** `search(term, cls, first, exact)`. */
  function Search(db: Db, k: Kind, term: Value, first: bool, exact: bool): (h: Hits)
    ensures first ==> h.First? && (h.hit.None? <==> Searched(db, k, term, exact) == [])
    ensures !first ==> h == All(Searched(db, k, term, exact))
  {
    Pick(Searched(db, k, term, exact), first)
  }

  /** A search hit is a record of the table with some non-NULL column that
      equals or contains the term, ignoring ASCII case; order is kept. */
  lemma SearchAll(db: Db, k: Kind, term: Value, exact: bool)
    ensures forall r :: r in Searched(db, k, term, exact) <==>
      r in Records(db, k) && exists i | 0 <= i < |r.fields| ::
        r.fields[i] != VNone && SearchCellHit(r.fields[i], Lower(Str(term)), exact)
    ensures Subsequence(Searched(db, k, term, exact), Records(db, k))
  {
    FilterIsSubsequence(Records(db, k), SearchTest(Lower(Str(term)), exact));
  }

  /** A first-hit `search` is the earliest record in `_id` order with a
      matching column, and None only when no record has one. */
  lemma SearchFirst(db: Db, k: Kind, term: Value, exact: bool)
    ensures Search(db, k, term, true, exact).hit.None? <==>
      forall r <- Records(db, k) :: !SearchHit(r, Lower(Str(term)), exact)
    ensures Search(db, k, term, true, exact).hit.Some? ==>
      exists i :: 0 <= i < |Records(db, k)|
        && Records(db, k)[i] == Search(db, k, term, true, exact).hit.value
        && SearchHit(Records(db, k)[i], Lower(Str(term)), exact)
        && forall j :: 0 <= j < i ==> !SearchHit(Records(db, k)[j], Lower(Str(term)), exact)
  {
    var rs := Records(db, k);
    var p := SearchTest(Lower(Str(term)), exact);
    if Filter(rs, p) != [] {
      FilterFirst(rs, p);
      assert Filter(rs, p)[0] in Filter(rs, p);
    }
  }

  /** A row whose every column is NULL is never found by `search`. */
  lemma SearchSkipsNullRows(db: Db, k: Kind, term: Value, exact: bool, r: Record)
    requires forall i | 0 <= i < |r.fields| :: r.fields[i] == VNone
    ensures r !in Searched(db, k, term, exact)
  {
  }

  // ---------------------------------------------------------------------------
  // search_instances and search_instances_by

  /** `s == str(y).lower()` or `s in str(y).lower()`: Python's `str` turns None
      into "None", so unlike SQL a None value can match. */
  predicate TextHit(v: Value, s: string, exact: bool)
  {
    if exact then s == Lower(Str(v)) else Contains(s, Lower(Str(v)))
  }

  /** `any(... for y in x.values())`. */
  predicate InstanceHit(x: Record, s: string, exact: bool)
  {
    exists i | 0 <= i < |x.fields| :: TextHit(x.fields[i], s, exact)
  }

  function InstanceTest(s: string, exact: bool): Record -> bool
  {
    x => InstanceHit(x, s, exact)
  }

  /** `search_instances(term, objs, first, exact)`: the records with some value
      whose text equals or contains the lowercased term. */
  function SearchInstances(term: Value, objs: seq<Record>, first: bool, exact: bool): (h: Hits)
    ensures !first ==> h.All? && Subsequence(h.hits, objs)
    ensures !first ==> forall x :: x in h.hits <==> x in objs && InstanceHit(x, Lower(Str(term)), exact)
    ensures first ==> h.First? && (h.hit.Some? ==> h.hit.value in objs && InstanceHit(h.hit.value, Lower(Str(term)), exact))
  {
    var p := InstanceTest(Lower(Str(term)), exact);
    FilterIsSubsequence(objs, p);
    Pick(Filter(objs, p), first)
  }

  /** A first-hit `search_instances` is the earliest matching object, and None
      only when no object matches. */
  lemma SearchInstancesFirst(term: Value, objs: seq<Record>, exact: bool)
    ensures SearchInstances(term, objs, true, exact).hit.None? <==>
      forall x <- objs :: !InstanceHit(x, Lower(Str(term)), exact)
    ensures SearchInstances(term, objs, true, exact).hit.Some? ==>
      exists i :: 0 <= i < |objs|
        && objs[i] == SearchInstances(term, objs, true, exact).hit.value
        && InstanceHit(objs[i], Lower(Str(term)), exact)
        && forall j :: 0 <= j < i ==> !InstanceHit(objs[j], Lower(Str(term)), exact)
  {
    var p := InstanceTest(Lower(Str(term)), exact);
    if Filter(objs, p) != [] {
      FilterFirst(objs, p);
      assert Filter(objs, p)[0] in Filter(objs, p);
    }
  }

  /** On rows without NULL cells the SQL search and the in-memory search agree. */
  lemma SearchMatchesInstances(db: Db, k: Kind, term: Value, first: bool, exact: bool)
    requires forall r <- Records(db, k) :: forall i | 0 <= i < |r.fields| :: r.fields[i] != VNone
    ensures Search(db, k, term, first, exact) == SearchInstances(term, Records(db, k), first, exact)
  {
    var s := Lower(Str(term));
    forall r | r in Records(db, k)
      ensures SearchTest(s, exact)(r) == InstanceTest(s, exact)(r)
    {
      if SearchHit(r, s, exact) {
        var i :| 0 <= i < |r.fields| && SearchCellHit(r.fields[i], s, exact);
        assert TextHit(r.fields[i], s, exact);
      }
      if InstanceHit(r, s, exact) {
        var i :| 0 <= i < |r.fields| && TextHit(r.fields[i], s, exact);
        assert SearchCellHit(r.fields[i], s, exact);
      }
    }
    FilterCongruent(Records(db, k), SearchTest(s, exact), InstanceTest(s, exact));
  }

  /** With NULL cells they part ways: searching for "none" finds an all-None
      record in memory and never in the table. */
  lemma NoneDivergence(x: Record)
    requires |x.fields| > 0 && forall i | 0 <= i < |x.fields| :: x.fields[i] == VNone
    ensures InstanceHit(x, "none", true)
    ensures !SearchHit(x, "none", true)
  {
    assert Lower("None") == "none";
    assert TextHit(x.fields[0], "none", true);
  }

  /** One object of `search_instances_by`: some requested column that the object
      has matches; requested names the object lacks are skipped. */
  predicate ByHit(x: Record, cols: seq<string>, s: string, exact: bool)
  {
    exists j | 0 <= j < |cols| :: cols[j] in Attrs(x.kind) && TextHit(Get(x, cols[j]), s, exact)
  }

  function ByTest(cols: seq<string>, s: string, exact: bool): Record -> bool
  {
    x => ByHit(x, cols, s, exact)
  }

  /** The objects `search_instances_by` keeps, in their original order. */
  function Matching(objs: seq<Record>, cols: seq<string>, s: string, exact: bool): seq<Record>
  {
    Filter(objs, ByTest(cols, s, exact))
  }

  /** `search_instances_by(term, cols, objs, first, exact)`. An empty or missing
      object list gives `[]` even when `first`; an empty or missing column list
      defers to `search_instances` and drops `exact`. */
  method SearchInstancesBy(term: Value, cols: Option<seq<string>>, objs: Option<seq<Record>>,
                           first: bool, exact: bool) returns (h: Hits)
    ensures objs.None? || objs.value == [] ==> h == All([])
    ensures objs.Some? && objs.value != [] && (cols.None? || cols.value == []) ==>
      h == SearchInstances(term, objs.value, first, false)
    ensures objs.Some? && objs.value != [] && cols.Some? && cols.value != [] ==>
      h == Pick(Matching(objs.value, cols.value, Lower(Str(term)), exact), first)
  {
    if objs.None? || objs.value == [] {
      return All([]);
    }
    if cols.None? || cols.value == [] {
      return SearchInstances(term, objs.value, first, false);
    }
    var kept := KeepWhere(objs.value, ByTest(cols.value, Lower(Str(term)), exact));
    h := Pick(kept, first);
  }

  /** The loop of `search_instances_by`: test each object in turn and append
      the ones that pass. */
  method KeepWhere(os: seq<Record>, keep: Record -> bool) returns (res: seq<Record>)
    ensures res == Filter(os, keep)
  {
    res := [];
    for i := 0 to |os|
      invariant res == Filter(os[..i], keep)
    {
      FilterSnoc(os, i, keep);
      if keep(os[i]) {
        res := res + [os[i]];
      }
    }
    assert os[..|os|] == os;
  }


  /** The kept objects are an order-preserving subsequence of the input, and
      exactly those with a matching requested column. */
  lemma MatchingMeaning(objs: seq<Record>, cols: seq<string>, s: string, exact: bool)
    ensures Subsequence(Matching(objs, cols, s, exact), objs)
    ensures forall x :: x in Matching(objs, cols, s, exact) <==> x in objs && ByHit(x, cols, s, exact)
  {
    FilterIsSubsequence(objs, ByTest(cols, s, exact));
  }

  /** Adding names an object does not have changes nothing about it. */
  lemma UnknownColumnsIgnored(x: Record, cols: seq<string>, extra: seq<string>, s: string, exact: bool)
    requires forall c <- extra :: c !in Attrs(x.kind)
    ensures ByHit(x, cols + extra, s, exact) <==> ByHit(x, cols, s, exact)
  {
    var all := cols + extra;
    if ByHit(x, all, s, exact) {
      var j :| 0 <= j < |all| && all[j] in Attrs(x.kind) && TextHit(Get(x, all[j]), s, exact);
      assert cols[j] == all[j];
    }
    if ByHit(x, cols, s, exact) {
      var j :| 0 <= j < |cols| && cols[j] in Attrs(x.kind) && TextHit(Get(x, cols[j]), s, exact);
      assert all[j] == cols[j];
    }
  }

  // ---------------------------------------------------------------------------
  // The pending-op table

  /** The `_id` of a pending-op row (-1 for a row without an integer id, which a
      valid table never holds). */
  function OpId(row: Row): int
  {
    if |row| > 0 && row[0].VInt? then row[0].i else -1
  }

  /** The pending-op table as its schema keeps it: nine columns per row, an
      integer `_id` first, rows listed in strictly ascending `_id` order. */
  predicate PendingValid(rows: seq<Row>)
  {
    && (forall i | 0 <= i < |rows| :: |rows[i]| == Arity(AchievementPendingOps) && rows[i][0].VInt?)
    && (forall i, j | 0 <= i < j < |rows| :: OpId(rows[i]) < OpId(rows[j]))
  }

  /** `get_next_pending_op_id`: 0 for an empty table, otherwise one more than
      `max(_id)`, which in `_id` order is the last row's id. */
  function NextOpId(rows: seq<Row>): (n: int)
    requires PendingValid(rows)
    ensures rows == [] ==> n == 0
    ensures rows != [] ==> exists i | 0 <= i < |rows| :: n == OpId(rows[i]) + 1
    ensures forall i | 0 <= i < |rows| :: OpId(rows[i]) < n
  {
    if rows == [] then 0 else OpId(rows[|rows| - 1]) + 1
  }

  /** No row of the table has id `id`. */
  predicate FreeId(rows: seq<Row>, id: int)
    requires PendingValid(rows)
  {
    forall i | 0 <= i < |rows| :: OpId(rows[i]) != id
  }

  /** `list(op.values())`: a dict's values in insertion order. */
  function DictValues(op: seq<(string, Value)>): (vs: seq<Value>)
    ensures |vs| == |op|
    ensures forall j :: 0 <= j < |op| ==> vs[j] == op[j].1
  {
    Map(op, (e: (string, Value)) => e.1)
  }

  /** The id SQLite gives a NULL integer primary key: one more than the
      largest id, and 1 in an empty table. */
  function AutoId(rows: seq<Row>): (n: int)
    requires PendingValid(rows)
    ensures rows == [] ==> n == 1
    ensures rows != [] ==> n == NextOpId(rows)
    ensures forall i | 0 <= i < |rows| :: OpId(rows[i]) < n
  {
    if rows == [] then 1 else NextOpId(rows)
  }

  /** What an insert stores: a NULL `_id` becomes the id SQLite assigns to an
      integer primary key. */
  function Stored(rows: seq<Row>, vals: Row): (row: Row)
    requires PendingValid(rows) && |vals| > 0
    ensures |row| == |vals| && row[1..] == vals[1..]
    ensures vals[0] != VNone ==> row == vals
    ensures vals[0] == VNone ==> row[0] == VInt(AutoId(rows)) && FreeId(rows, AutoId(rows))
  {
    if vals[0] == VNone then vals[0 := VInt(AutoId(rows))] else vals
  }

  /** On an empty queue the id `get_next_pending_op_id` hands out (0) and the
      id SQLite assigns to a NULL `_id` (1) differ; on any other queue they
      agree. */
  lemma AutoIdAgainstNextOpId(rows: seq<Row>)
    requires PendingValid(rows)
    ensures rows == [] ==> NextOpId(rows) == 0 && AutoId(rows) == 1
    ensures rows != [] ==> AutoId(rows) == NextOpId(rows)
  {
  }

  /** Why an insert of these values fails, if it does: a wrong number of
      values, an `_id` that is not an integer, or one already taken. */
  function InsertError(rows: seq<Row>, vals: Row): Option<string>
    requires PendingValid(rows)
  {
    if |vals| != Arity(AchievementPendingOps) then
      Some("sqlite3.OperationalError: table achievement_pending_ops has 9 columns")
    else if !(vals[0].VNone? || vals[0].VInt?) then
      Some("sqlite3.IntegrityError: datatype mismatch")
    else if vals[0].VInt? && !FreeId(rows, vals[0].i) then
      Some("sqlite3.IntegrityError: UNIQUE constraint failed: achievement_pending_ops._id")
    else None
  }

  /** The table after a row joins it, kept in `_id` order. */
  function InsertRow(rows: seq<Row>, row: Row): (r: seq<Row>)
    requires PendingValid(rows) && |row| == Arity(AchievementPendingOps) && row[0].VInt?
    requires FreeId(rows, OpId(row))
    ensures |r| == |rows| + 1
    decreases |rows|
  {
    if rows == [] || OpId(row) < OpId(rows[0]) then [row] + rows
    else [rows[0]] + InsertRow(rows[1..], row)
  }

  /** The rows after the first of a valid table form a valid table. */
  lemma TailValid(rows: seq<Row>)
    requires PendingValid(rows) && rows != []
    ensures PendingValid(rows[1..])
    ensures forall i | 0 <= i < |rows[1..]| :: OpId(rows[0]) < OpId(rows[1..][i])
  {
    var tail := rows[1..];
    forall i, j | 0 <= i < j < |tail|
      ensures OpId(tail[i]) < OpId(tail[j])
    {
      assert tail[i] == rows[i + 1] && tail[j] == rows[j + 1];
    }
    forall i | 0 <= i < |tail|
      ensures OpId(rows[0]) < OpId(tail[i])
    {
      assert tail[i] == rows[i + 1];
    }
  }

  /** Inserting adds exactly the new row. */
  lemma {:induction false} InsertRowMembers(rows: seq<Row>, row: Row)
    requires PendingValid(rows) && |row| == Arity(AchievementPendingOps) && row[0].VInt?
    requires FreeId(rows, OpId(row))
    ensures multiset(InsertRow(rows, row)) == multiset(rows) + multiset{row}
    decreases |rows|
  {
    if !(rows == [] || OpId(row) < OpId(rows[0])) {
      TailValid(rows);
      InsertRowMembers(rows[1..], row);
      assert rows == [rows[0]] + rows[1..];
    }
  }

  /** Inserting keeps the rows in ascending `_id` order. */
  lemma {:induction false} InsertRowSorted(rows: seq<Row>, row: Row)
    requires PendingValid(rows) && |row| == Arity(AchievementPendingOps) && row[0].VInt?
    requires FreeId(rows, OpId(row))
    ensures PendingValid(InsertRow(rows, row))
    decreases |rows|
  {
    var r := InsertRow(rows, row);
    if rows == [] || OpId(row) < OpId(rows[0]) {
      forall i, j | 0 <= i < j < |r|
        ensures OpId(r[i]) < OpId(r[j])
      {
        assert r[j] == rows[j - 1];
        if i > 0 {
          assert r[i] == rows[i - 1];
        }
      }
    } else {
      TailValid(rows);
      var ins := InsertRow(rows[1..], row);
      InsertRowSorted(rows[1..], row);
      InsertRowAbove(rows[1..], row, OpId(rows[0]));
      assert r == [rows[0]] + ins;
      forall i, j | 0 <= i < j < |r|
        ensures OpId(r[i]) < OpId(r[j])
      {
        assert r[j] == ins[j - 1];
        if i > 0 {
          assert r[i] == ins[i - 1];
        }
      }
    }
  }

  /** Inserting a row into rows whose ids all exceed `b` gives rows whose ids all
      exceed `b`, when the new row's does too. */
  lemma {:induction false} InsertRowAbove(rows: seq<Row>, row: Row, b: int)
    requires PendingValid(rows) && |row| == Arity(AchievementPendingOps) && row[0].VInt?
    requires FreeId(rows, OpId(row))
    requires b < OpId(row) && forall i | 0 <= i < |rows| :: b < OpId(rows[i])
    ensures forall k | 0 <= k < |InsertRow(rows, row)| :: b < OpId(InsertRow(rows, row)[k])
    decreases |rows|
  {
    var r := InsertRow(rows, row);
    if rows == [] || OpId(row) < OpId(rows[0]) {
      forall k | 0 <= k < |r|
        ensures b < OpId(r[k])
      {
        if k > 0 {
          assert r[k] == rows[k - 1];
        }
      }
    } else {
      TailValid(rows);
      InsertRowAbove(rows[1..], row, b);
      var ins := InsertRow(rows[1..], row);
      assert r == [rows[0]] + ins;
      forall k | 0 <= k < |r|
        ensures b < OpId(r[k])
      {
        if k > 0 {
          assert r[k] == ins[k - 1];
        }
      }
    }
  }

  /** A row whose id exceeds every other goes at the end. */
  lemma {:induction false} InsertRowAppends(rows: seq<Row>, row: Row)
    requires PendingValid(rows) && |row| == Arity(AchievementPendingOps) && row[0].VInt?
    requires forall i | 0 <= i < |rows| :: OpId(rows[i]) < OpId(row)
    ensures FreeId(rows, OpId(row))
    ensures InsertRow(rows, row) == rows + [row]
    decreases |rows|
  {
    if rows != [] {
      TailValid(rows);
      forall i | 0 <= i < |rows[1..]|
        ensures OpId(rows[1..][i]) < OpId(row)
      {
        assert rows[1..][i] == rows[i + 1];
      }
      InsertRowAppends(rows[1..], row);
      assert rows == [rows[0]] + rows[1..];
    }
  }

  /** Queuing nine values whose `_id` is NULL or the next free id succeeds and
      appends the row at the end of the table. */
  lemma NextIdAppends(rows: seq<Row>, vals: Row)
    requires PendingValid(rows) && |vals| == Arity(AchievementPendingOps)
    requires vals[0] == VNone || vals[0] == VInt(NextOpId(rows))
    ensures InsertError(rows, vals).None?
    ensures InsertRow(rows, Stored(rows, vals)) == rows + [Stored(rows, vals)]
    ensures vals[0] != VNone ==> OpId(Stored(rows, vals)) == NextOpId(rows)
    ensures vals[0] == VNone ==> OpId(Stored(rows, vals)) == AutoId(rows)
  {
    InsertRowAppends(rows, Stored(rows, vals));
  }

  /** The column `remove_duplicate_pending_ops` compares: the `id` property
      reads `_id`; any other name must be a field. */
  function KeyColumn(col: string): (pos: Option<nat>)
    ensures pos.Some? ==> pos.value < Arity(AchievementPendingOps)
    ensures pos.Some? <==> col == "id" || col in FieldNames(AchievementPendingOps)
  {
    if col == "id" then Some(0)
    else if col in FieldNames(AchievementPendingOps) then Some(IndexOf(FieldNames(AchievementPendingOps), col))
    else None
  }

  /** The key of a row at column `pos`, as `getattr` reads it off the record. */
  function Key(row: Row, pos: nat): Value
  {
    Slot(pos, row)
  }

  /** The first-wins pass over `rows` once the keys in `seen` are taken. */
  function DedupFrom(rows: seq<Row>, pos: nat, seen: set<Value>): seq<Row>
    decreases |rows|
  {
    if rows == [] then []
    else if Key(rows[0], pos) in seen then DedupFrom(rows[1..], pos, seen)
    else [rows[0]] + DedupFrom(rows[1..], pos, seen + {Key(rows[0], pos)})
  }

  /** The rows that survive: the first row with each key, in table order. */
  function Dedup(rows: seq<Row>, pos: nat): seq<Row>
  {
    DedupFrom(rows, pos, {})
  }

  /** The table after `remove_duplicate_pending_ops(col)` succeeds. */
  function DedupBy(rows: seq<Row>, col: string): seq<Row>
  {
    if KeyColumn(col).Some? then Dedup(rows, KeyColumn(col).value) else rows
  }

  /** The set of keys the rows carry at column `pos`. */
  function Keys(rows: seq<Row>, pos: nat): set<Value>
  {
    set row | row in rows :: Key(row, pos)
  }

  /** Deleting the row with id `id` by `delete ... where _id = ?`. */
  function DeleteId(rows: seq<Row>, id: int): seq<Row>
  {
    Filter(rows, OtherId(id))
  }

  function OtherId(id: int): Row -> bool
  {
    row => OpId(row) != id
  }

  /** Dropping one row keeps a valid table valid. */
  lemma DropKeepsValid(a: seq<Row>, x: Row, b: seq<Row>)
    requires PendingValid(a + [x] + b)
    ensures PendingValid(a + b)
  {
    var all: seq<Row> := a + [x] + b;
    var r: seq<Row> := a + b;
    forall i | 0 <= i < |r|
      ensures |r[i]| == Arity(AchievementPendingOps) && r[i][0].VInt?
    {
      if i < |a| { assert r[i] == all[i]; } else { assert r[i] == all[i + 1]; }
    }
    forall i, j | 0 <= i < j < |r|
      ensures OpId(r[i]) < OpId(r[j])
    {
      var i' := if i < |a| then i else i + 1;
      var j' := if j < |a| then j else j + 1;
      assert r[i] == all[i'] && r[j] == all[j'];
    }
  }

  /** Deleting the first unprocessed row of `kept + rest` by its id removes that
      row and nothing else, since ids are unique. */
  lemma DeleteFirstOfRest(kept: seq<Row>, rest: seq<Row>)
    requires PendingValid(kept + rest) && rest != []
    ensures DeleteId(kept + rest, OpId(rest[0])) == kept + rest[1..]
  {
    var all := kept + rest;
    var p := OtherId(OpId(rest[0]));
    assert all == kept + [rest[0]] + rest[1..];
    forall x | x in kept
      ensures p(x)
    {
      var m :| 0 <= m < |kept| && kept[m] == x;
      assert all[m] == x && all[|kept|] == rest[0];
    }
    forall x | x in rest[1..]
      ensures p(x)
    {
      var m :| 0 <= m < |rest[1..]| && rest[1..][m] == x;
      assert all[|kept| + 1 + m] == x && all[|kept|] == rest[0];
    }
    FilterDropOne(kept, rest[0], rest[1..], p);
  }

  /** The keys that survive are pairwise distinct and none was already seen. */
  lemma {:induction false} DedupDistinct(rows: seq<Row>, pos: nat, seen: set<Value>)
    ensures forall r <- DedupFrom(rows, pos, seen) :: Key(r, pos) !in seen
    ensures forall i, j | 0 <= i < j < |DedupFrom(rows, pos, seen)| ::
      Key(DedupFrom(rows, pos, seen)[i], pos) != Key(DedupFrom(rows, pos, seen)[j], pos)
    decreases |rows|
  {
    if rows != [] {
      var k := Key(rows[0], pos);
      if k in seen {
        DedupDistinct(rows[1..], pos, seen);
      } else {
        DedupDistinct(rows[1..], pos, seen + {k});
        var d := DedupFrom(rows, pos, seen);
        var tail := DedupFrom(rows[1..], pos, seen + {k});
        assert d == [rows[0]] + tail;
        forall i, j | 0 <= i < j < |d|
          ensures Key(d[i], pos) != Key(d[j], pos)
        {
          assert d[j] == tail[j - 1];
          assert d[j] in tail;
          if i > 0 {
            assert d[i] == tail[i - 1];
          }
        }
      }
    }
  }

  /** The survivors are an order-preserving subsequence of the rows. */
  lemma {:induction false} DedupSubsequence(rows: seq<Row>, pos: nat, seen: set<Value>)
    ensures Subsequence(DedupFrom(rows, pos, seen), rows)
    decreases |rows|
  {
    if rows != [] {
      var k := Key(rows[0], pos);
      if k in seen {
        DedupSubsequence(rows[1..], pos, seen);
        var d := DedupFrom(rows[1..], pos, seen);
        if d != [] {
          assert Subsequence(d, rows[1..]);
        }
      } else {
        DedupSubsequence(rows[1..], pos, seen + {k});
      }
    }
  }

  /** No key is lost: the survivors carry every key not already seen. */
  lemma {:induction false} DedupKeys(rows: seq<Row>, pos: nat, seen: set<Value>)
    ensures Keys(DedupFrom(rows, pos, seen), pos) == Keys(rows, pos) - seen
    decreases |rows|
  {
    if rows != [] {
      var k := Key(rows[0], pos);
      var tail := rows[1..];
      assert rows == [rows[0]] + tail;
      assert Keys(rows, pos) == {k} + Keys(tail, pos);
      if k in seen {
        DedupKeys(tail, pos, seen);
      } else {
        DedupKeys(tail, pos, seen + {k});
        var d := DedupFrom(tail, pos, seen + {k});
        assert Keys([rows[0]] + d, pos) == {k} + Keys(d, pos);
      }
    }
  }

  /** Rows with pairwise distinct keys carry as many keys as there are rows. */
  lemma {:induction false} DistinctKeysCount(rows: seq<Row>, pos: nat)
    requires forall i, j | 0 <= i < j < |rows| :: Key(rows[i], pos) != Key(rows[j], pos)
    ensures |Keys(rows, pos)| == |rows|
    decreases |rows|
  {
    if rows != [] {
      var tail := rows[1..];
      assert rows == [rows[0]] + tail;
      DistinctKeysTail(rows, pos);
      DistinctKeysCount(tail, pos);
      assert Keys(rows, pos) == {Key(rows[0], pos)} + Keys(tail, pos);
    }
  }

  /** What the pass promises: survivors have distinct keys, every key keeps a
      row, and the count removed is the row count less the number of keys. */
  lemma DedupCount(rows: seq<Row>, pos: nat)
    ensures Keys(Dedup(rows, pos), pos) == Keys(rows, pos)
    ensures |Dedup(rows, pos)| == |Keys(rows, pos)|
    ensures |rows| - |Dedup(rows, pos)| == |rows| - |Keys(rows, pos)|
  {
    DedupKeys(rows, pos, {});
    DedupDistinct(rows, pos, {});
    DistinctKeysCount(Dedup(rows, pos), pos);
  }

  /** Rows whose keys are distinct and unseen all survive. */
  lemma {:induction false} DedupKeepsDistinct(rows: seq<Row>, pos: nat, seen: set<Value>)
    requires forall i, j | 0 <= i < j < |rows| :: Key(rows[i], pos) != Key(rows[j], pos)
    requires forall r <- rows :: Key(r, pos) !in seen
    ensures DedupFrom(rows, pos, seen) == rows
    decreases |rows|
  {
    if rows != [] {
      var k := Key(rows[0], pos);
      DistinctKeysTail(rows, pos);
      UnseenKeysTail(rows, pos, seen);
      DedupKeepsDistinct(rows[1..], pos, seen + {k});
    }
  }

  /** Distinct keys stay distinct in the tail. */
  lemma DistinctKeysTail(rows: seq<Row>, pos: nat)
    requires rows != []
    requires forall i, j | 0 <= i < j < |rows| :: Key(rows[i], pos) != Key(rows[j], pos)
    ensures forall i, j | 0 <= i < j < |rows[1..]| :: Key(rows[1..][i], pos) != Key(rows[1..][j], pos)
  {
    forall i, j | 0 <= i < j < |rows[1..]|
      ensures Key(rows[1..][i], pos) != Key(rows[1..][j], pos)
    {
      assert rows[1..][i] == rows[i + 1] && rows[1..][j] == rows[j + 1];
    }
  }

  /** With distinct keys, no key of the tail is the head's. */
  lemma UnseenKeysTail(rows: seq<Row>, pos: nat, seen: set<Value>)
    requires rows != []
    requires forall i, j | 0 <= i < j < |rows| :: Key(rows[i], pos) != Key(rows[j], pos)
    requires forall r <- rows :: Key(r, pos) !in seen
    ensures forall r <- rows[1..] :: Key(r, pos) !in seen + {Key(rows[0], pos)}
  {
    forall r | r in rows[1..]
      ensures Key(r, pos) !in seen + {Key(rows[0], pos)}
    {
      var m :| 0 <= m < |rows[1..]| && rows[1..][m] == r;
      assert rows[m + 1] == r;
    }
  }

  /** A second pass changes nothing. */
  lemma DedupIdempotent(rows: seq<Row>, col: string)
    ensures DedupBy(DedupBy(rows, col), col) == DedupBy(rows, col)
  {
    if KeyColumn(col).Some? {
      var pos := KeyColumn(col).value;
      DedupDistinct(rows, pos, {});
      DedupKeepsDistinct(Dedup(rows, pos), pos, {});
    }
  }

  /** The survivor for each key is its first row: a row survives exactly when no
      earlier row carries its key (rows are distinct, as their ids are). */
  lemma {:induction false} DedupFirstWins(rows: seq<Row>, pos: nat, seen: set<Value>, j: nat)
    requires j < |rows|
    requires forall a, b | 0 <= a < b < |rows| :: rows[a] != rows[b]
    ensures rows[j] in DedupFrom(rows, pos, seen) <==>
      Key(rows[j], pos) !in seen && forall i | 0 <= i < j :: Key(rows[i], pos) != Key(rows[j], pos)
    decreases |rows|
  {
    var k := Key(rows[0], pos);
    var tail := rows[1..];
    var seen' := if k in seen then seen else seen + {k};
    assert DedupFrom(rows, pos, seen) == (if k in seen then [] else [rows[0]]) + DedupFrom(tail, pos, seen');
    DedupSubsequence(tail, pos, seen');
    SubsequenceMembers(DedupFrom(tail, pos, seen'), tail);
    if j > 0 {
      DistinctTail(rows);
      DedupFirstWins(tail, pos, seen', j - 1);
      assert tail[j - 1] == rows[j];
      assert rows[j] != rows[0];
      forall i | 0 <= i < j - 1
        ensures tail[i] == rows[i + 1]
      {
      }
    }
  }

  /** Distinct elements stay distinct in the tail. */
  lemma DistinctTail<T>(s: seq<T>)
    requires s != [] && forall a, b | 0 <= a < b < |s| :: s[a] != s[b]
    ensures forall a, b | 0 <= a < b < |s[1..]| :: s[1..][a] != s[1..][b]
  {
    forall a, b | 0 <= a < b < |s[1..]|
      ensures s[1..][a] != s[1..][b]
    {
      assert s[1..][a] == s[a + 1] && s[1..][b] == s[b + 1];
    }
  }

  /** One step of the pass: a row whose key was seen is dropped, any other row
      is kept and its key marked seen. */
  lemma DedupStep(ops: seq<Row>, i: nat, kept: seq<Row>, pos: nat, seen: set<Value>, target: seq<Row>)
    requires i < |ops|
    requires kept + DedupFrom(ops[i..], pos, seen) == target
    ensures Key(ops[i], pos) in seen ==>
      kept + DedupFrom(ops[i + 1..], pos, seen) == target
    ensures Key(ops[i], pos) !in seen ==>
      (kept + [ops[i]]) + DedupFrom(ops[i + 1..], pos, seen + {Key(ops[i], pos)}) == target
  {
    assert ops[i..][1..] == ops[i + 1..];
  }

  /** Keeping the current row moves it from the unvisited rows to the kept ones. */
  lemma KeepStep(ops: seq<Row>, i: nat, kept: seq<Row>)
    requires i < |ops|
    ensures (kept + [ops[i]]) + ops[i + 1..] == kept + ops[i..]
  {
    assert ops[i..] == [ops[i]] + ops[i + 1..];
  }

  /** Deleting the current row by its id leaves the kept rows and the unvisited
      ones, still a valid table. */
  lemma DeleteStep(ops: seq<Row>, i: nat, kept: seq<Row>)
    requires i < |ops|
    requires PendingValid(kept + ops[i..])
    ensures DeleteId(kept + ops[i..], OpId(ops[i])) == kept + ops[i + 1..]
    ensures PendingValid(kept + ops[i + 1..])
  {
    assert ops[i..] == [ops[i]] + ops[i + 1..];
    assert kept + ops[i..] == kept + [ops[i]] + ops[i + 1..];
    DeleteFirstOfRest(kept, ops[i..]);
    DropKeepsValid(kept, ops[i], ops[i + 1..]);
  }

  /** The pending-op table, the only state the tool changes. */
  class DbFile {
    var db: Db

    ghost predicate Valid()
      reads this
    {
      PendingValid(db.pendingOps)
    }

    constructor (initial: Db)
      requires PendingValid(initial.pendingOps)
      ensures Valid() && db == initial
    {
      db := initial;
    }

    /** `get_next_pending_op_id`. */
    method NextPendingOpId() returns (n: int)
      requires Valid()
      ensures n == NextOpId(db.pendingOps)
    {
      var rows := db.pendingOps;
      n := if |rows| == 0 then 0 else OpId(rows[|rows| - 1]) + 1;
    }

    /** `empty_pending_ops`: every queued row is deleted. */
    method EmptyPendingOps()
      requires Valid()
      modifies this
      ensures Valid()
      ensures db == old(db).(pendingOps := [])
    {
      db := db.(pendingOps := []);
    }

    /** `add_pending_op(op)`: inserts the dict's values, in insertion order, as
      one row. SQLite refuses a wrong value count, a non-integer id and a
      duplicate id; then nothing changes. */
    method AddPendingOp(op: seq<(string, Value)>) returns (res: Result<()>)
      requires Valid()
      modifies this
      ensures Valid()
      ensures res.Abort? == false
      ensures res.Ok? <==> InsertError(old(db.pendingOps), DictValues(op)).None?
      ensures res.Crash? ==> db == old(db)
      ensures res.Ok? ==> (|DictValues(op)| > 0 &&
        db == old(db).(pendingOps := InsertRow(old(db.pendingOps), Stored(old(db.pendingOps), DictValues(op)))))
    {
      var vals := DictValues(op);
      var err := InsertError(db.pendingOps, vals);
      if err.Some? {
        return Crash(err.value);
      }
      var row := Stored(db.pendingOps, vals);
      InsertRowSorted(db.pendingOps, row);
      db := db.(pendingOps := InsertRow(db.pendingOps, row));
      res := Ok(());
    }

    /** `remove_duplicate_pending_ops(col)`: walks the rows in `_id` order and
      deletes each row whose `col` value an earlier row already had, counting
      the deletions. An unknown attribute raises at the first row. */
    method RemoveDuplicatePendingOps(col: string) returns (res: Result<nat>)
      requires Valid()
      modifies this
      ensures Valid()
      ensures res.Crash? <==> old(db.pendingOps) != [] && KeyColumn(col).None?
      ensures !res.Abort?
      ensures res.Crash? ==> db == old(db)
      ensures res.Ok? ==> db == old(db).(pendingOps := DedupBy(old(db.pendingOps), col))
      ensures res.Ok? ==> res.value == |old(db.pendingOps)| - |DedupBy(old(db.pendingOps), col)|
    {
      var ops := db.pendingOps;
      if ops == [] {
        return Ok(0);
      }
      var key := KeyColumn(col);
      if key.None? {
        return Crash("AttributeError: 'AchievementPendingOp' object has no attribute");
      }
      var removed := DropRepeatedKeys(key.value);
      res := Ok(removed);
    }

    /** The loop of `remove_duplicate_pending_ops` once the column is known to
      be at position `pos`. */
    method DropRepeatedKeys(pos: nat) returns (removed: nat)
      requires Valid()
      modifies this
      ensures Valid()
      ensures db == old(db).(pendingOps := Dedup(old(db.pendingOps), pos))
      ensures removed == |old(db.pendingOps)| - |Dedup(old(db.pendingOps), pos)|
    {
      var ops := db.pendingOps;
      var seen: set<Value> := {};
      removed := 0;
      ghost var kept: seq<Row> := [];
      ghost var target := Dedup(ops, pos);
      for i := 0 to |ops|
        invariant db == old(db).(pendingOps := db.pendingOps)
        invariant db.pendingOps == kept + ops[i..]
        invariant PendingValid(kept + ops[i..])
        invariant kept + DedupFrom(ops[i..], pos, seen) == target
        invariant removed == i - |kept|
      {
        var dropped;
        seen, kept, dropped := VisitRow(ops, pos, i, seen, kept, target);
        if dropped {
          removed := removed + 1;
        }
      }
      assert ops[|ops|..] == [];
    }

    /** One pass of that loop: the `i`-th row is deleted when its key was
      seen, and otherwise kept with its key marked seen. */
    method VisitRow(ops: seq<Row>, pos: nat, i: nat, seen: set<Value>, ghost kept: seq<Row>, ghost target: seq<Row>)
      returns (seen': set<Value>, ghost kept': seq<Row>, dropped: bool)
      requires i < |ops|
      requires db.pendingOps == kept + ops[i..] && PendingValid(kept + ops[i..])
      requires kept + DedupFrom(ops[i..], pos, seen) == target
      modifies this
      ensures db == old(db).(pendingOps := db.pendingOps)
      ensures db.pendingOps == kept' + ops[i + 1..]
      ensures PendingValid(kept' + ops[i + 1..])
      ensures kept' + DedupFrom(ops[i + 1..], pos, seen') == target
      ensures dropped <==> Key(ops[i], pos) in seen
      ensures kept' == if dropped then kept else kept + [ops[i]]
    {
      var op := ops[i];
      DedupStep(ops, i, kept, pos, seen, target);
      if Key(op, pos) in seen {
        DeleteStep(ops, i, kept);
        db := db.(pendingOps := DeleteId(db.pendingOps, OpId(op)));
        seen', kept', dropped := seen, kept, true;
      } else {
        KeepStep(ops, i, kept);
        seen', kept', dropped := seen + {Key(op, pos)}, kept + [op], false;
      }
    }
  }
}
