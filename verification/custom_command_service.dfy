/** The custom-command table as an in-memory sequence of rows, in
    insertion order, with the service's queries, upsert and delete. A
    `fails` argument stands for the database throwing during the call:
    reads swallow it and return an empty list or null, writes rethrow it
    and leave the table as it was. */
module CustomCommandService {
  import opened Wrappers
  import opened Numbers
  import opened CustomCommand
  import opened CommandOrder

  type Table = seq<CustomCommand>

  /** The ids present in the table. */
  function IdsOf(t: Table): (ids: set<Guid>)
    ensures forall i :: 0 <= i < |t| ==> t[i].id in ids
  {
    if t == [] then {} else {t[0].id} + IdsOf(t[1..])
  }

  /** The table's primary key: no two rows share an id. */
  predicate UniqueIds(t: Table) {
    t == [] || (t[0].id !in IdsOf(t[1..]) && UniqueIds(t[1..]))
  }

  /** `FirstOrDefaultAsync(c => c.Id == id)`: the first row with that id. */
  function Find(t: Table, id: Guid): (r: Option<CustomCommand>)
    ensures r.None? <==> id !in IdsOf(t)
    ensures r.Some? ==> r.value in t && r.value.id == id
  {
    if t == [] then None
    else if t[0].id == id then Some(t[0])
    else Find(t[1..], id)
  }

  /** The table after saving `c`: the row with its id takes all of `c`'s
      fields where it stands, or `c` is appended when no row has its id. */
  function Upsert(t: Table, c: CustomCommand): (r: Table)
    ensures Find(r, c.id) == Some(c)
    ensures forall id :: id != c.id ==> Find(r, id) == Find(t, id)
    ensures IdsOf(r) == IdsOf(t) + {c.id}
    ensures |r| == |t| + (if c.id in IdsOf(t) then 0 else 1)
    ensures UniqueIds(t) ==> UniqueIds(r)
  {
    if t == [] then [c]
    else if t[0].id == c.id then
      assert ([c] + t[1..])[1..] == t[1..];
      [c] + t[1..]
    else
      var r := [t[0]] + Upsert(t[1..], c);
      assert r[1..] == Upsert(t[1..], c);
      r
  }

  /** The table after removing the row with id `id`, if there is one. */
  function Remove(t: Table, id: Guid): (r: Table)
    ensures forall x :: x != id ==> Find(r, x) == Find(t, x)
    ensures IdsOf(r) <= IdsOf(t)
    ensures |r| == |t| - (if id in IdsOf(t) then 1 else 0)
    ensures id !in IdsOf(t) ==> r == t
    ensures UniqueIds(t) ==> UniqueIds(r) && id !in IdsOf(r)
  {
    if t == [] then []
    else if t[0].id == id then t[1..]
    else
      var r := [t[0]] + Remove(t[1..], id);
      assert r[1..] == Remove(t[1..], id);
      r
  }

  /** The rows a query selects: one server's commands, optionally only
      those aimed at one target. */
  predicate Selected(c: CustomCommand, serverProfileId: Guid, target: Option<CommandTarget>)
    ensures target.Some? ==> (Selected(c, serverProfileId, target) <==> c.serverProfileId == serverProfileId && c.target == target.value)
  {
    c.serverProfileId == serverProfileId && (target.None? || c.target == target.value)
  }

  /** `Where(...)`: the selected rows, in table order. */
  function Filter(t: Table, serverProfileId: Guid, target: Option<CommandTarget>): (r: Table)
    ensures forall c :: multiset(r)[c] == if Selected(c, serverProfileId, target) then multiset(t)[c] else 0
    ensures forall i :: 0 <= i < |r| ==> Selected(r[i], serverProfileId, target)
  {
    if t == [] then []
    else
      var rest := Filter(t[1..], serverProfileId, target);
      assert t == [t[0]] + t[1..];
      if Selected(t[0], serverProfileId, target) then [t[0]] + rest else rest
  }

  /** `GetCommandsForServerAsync`: exactly that server's commands, each as
      often as in the table, sorted by target, category and name; an empty
      list when the read fails. */
  function GetCommandsForServer(t: Table, serverProfileId: Guid, fails: bool): (r: seq<CustomCommand>)
    ensures fails ==> r == []
    ensures !fails ==> forall c :: multiset(r)[c] == if c.serverProfileId == serverProfileId then multiset(t)[c] else 0
    ensures SortedByKey(r)
  {
    if fails then [] else Sort(Filter(t, serverProfileId, None))
  }

  /** `GetCommandsByTargetAsync`: exactly that server's commands aimed at
      `target`, sorted by category and name; an empty list when the read
      fails. */
  function GetCommandsByTarget(t: Table, serverProfileId: Guid, target: CommandTarget, fails: bool): (r: seq<CustomCommand>)
    ensures fails ==> r == []
    ensures !fails ==> forall c :: multiset(r)[c] == if Selected(c, serverProfileId, Some(target)) then multiset(t)[c] else 0
    ensures SortedByCategoryName(r)
  {
    if fails then []
    else
      var f := Filter(t, serverProfileId, Some(target));
      var r := Sort(f);
      forall i | 0 <= i < |r|
        ensures r[i].target == target
      {
        assert r[i] in multiset(f);
        var k :| 0 <= k < |f| && f[k] == r[i];
      }
      SortedSameTarget(r, target);
      r
  }

  /** `GetCommandByIdAsync`: the row with that id, or null when there is
      none or the read fails. */
  function GetCommandById(t: Table, id: Guid, fails: bool): (r: Option<CustomCommand>)
    ensures fails ==> r.None?
    ensures !fails ==> r == Find(t, id)
  {
    if fails then None else Find(t, id)
  }

  datatype DbError = DbError

  /** `SaveCommandAsync`: upserts and returns its argument; a failing
      database write is rethrown. */
  function SaveCommand(t: Table, c: CustomCommand, fails: bool): (r: Result<(Table, CustomCommand), DbError>)
    ensures r.Failure? <==> fails
    ensures r.Success? ==> r.value.1 == c && r.value.0 == Upsert(t, c)
  {
    if fails then Failure(DbError) else Success((Upsert(t, c), c))
  }

  /** `DeleteCommandAsync`: removes the row with the command's id, if any;
      a failing database call is rethrown. */
  function DeleteCommand(t: Table, c: CustomCommand, fails: bool): (r: Result<Table, DbError>)
    ensures r.Failure? <==> fails
    ensures r.Success? ==> r.value == Remove(t, c.id)
  {
    if fails then Failure(DbError) else Success(Remove(t, c.id))
  }

  // ---------------------------------------------------------------------
  // Properties across calls

  /** A saved command is what a later lookup by its id returns. */
  lemma SaveThenGet(t: Table, c: CustomCommand)
    ensures GetCommandById(SaveCommand(t, c, false).value.0, c.id, false) == Some(c)
  {
  }

  /** Saving a command whose id is new and then deleting it gives the
      table back. */
  lemma {:induction false} SaveNewThenDelete(t: Table, c: CustomCommand)
    requires c.id !in IdsOf(t)
    ensures Remove(Upsert(t, c), c.id) == t
  {
    if t != [] {
      SaveNewThenDelete(t[1..], c);
    }
  }

  /** Saving the same command twice is the same as saving it once. */
  lemma {:induction false} SaveIdempotent(t: Table, c: CustomCommand)
    ensures Upsert(Upsert(t, c), c) == Upsert(t, c)
  {
    if t != [] && t[0].id != c.id {
      SaveIdempotent(t[1..], c);
    }
  }

  /** A saved command shows up in its server's list. */
  lemma SavedCommandListed(t: Table, c: CustomCommand)
    ensures c in GetCommandsForServer(Upsert(t, c), c.serverProfileId, false)
  {
    var u := Upsert(t, c);
    assert Find(u, c.id).value in u;
    assert multiset(u)[c] > 0;
  }
}
