/**
 * The Laravel controller: `DynamicController::handle` and the four action
 * classes `InsertAction`, `UpdateAction`, `DeleteAction` and `GetAction`.
 * Validation uses PHP truthiness, so `0`, `"0"`, `""`, `[]` and null all
 * fail it. The query builder is modelled by the calls it receives; what the
 * database does with them is an input (`db`).
 */
module Controller {
  import opened Json
  import opened Text
  import opened Envelope
  import opened Dispatch

  /** PHP truthiness: `!$v` holds exactly when this is false. */
  predicate Truthy(v: Value)
    ensures !Truthy(v) <==> v in {Null, Bool(false), Int(0), Str(""), Str("0"), Object([]), Array([])}
  {
    match v
    case Null => false
    case Bool(b) => b
    case Int(i) => i != 0
    case Str(s) => s != "" && s != "0"
    case Object(members) => members != []
    case Array(items) => items != []
  }

  /** `is_array($v)`: JSON objects and lists both decode to PHP arrays. */
  predicate IsArray(v: Value)
  {
    v.Object? || v.Array?
  }

  /**
   * `foreach ($v as $key => $value)`: an object yields its string keys, a
   * list yields the positions 0, 1, 2, ... as keys.
   */
  function Entries(v: Value): (es: seq<(Value, Value)>)
    requires IsArray(v)
    ensures v.Object? ==>
      (|es| == |v.members| && forall k :: 0 <= k < |es| ==> es[k] == (Str(v.members[k].0), v.members[k].1))
    ensures v.Array? ==>
      (|es| == |v.items| && forall k :: 0 <= k < |es| ==> es[k] == (Int(k), v.items[k]))
  {
    if v.Object? then
      seq(|v.members|, k requires 0 <= k < |v.members| => (Str(v.members[k].0), v.members[k].1))
    else
      seq(|v.items|, k requires 0 <= k < |v.items| => (Int(k), v.items[k]))
  }

  /** The one query-builder call an action ends with. */
  datatype Call =
    | InsertGetId(table: Value, row: Value)
    | UpdateWhere(table: Value, field: Value, key: Value, row: Value)
    | DeleteWhere(table: Value, field: Value, key: Value)
    | Select(table: Value, wheres: seq<(Value, Value)>, limit: Option<Value>)

  /** The request object the controller receives and hands on to the action. */
  class Request {
    var input: Body

    constructor (input: Body)
      ensures this.input == input
    {
      this.input := input;
    }

    /** `$request->merge([$key => $value])` */
    method Merge(key: string, value: Value)
      modifies this
      ensures input == Put(old(input), key, value)
    {
      input := Put(input, key, value);
    }
  }

  /** `DB::table($table)`: a select under construction. */
  class QueryBuilder {
    const table: Value
    var wheres: seq<(Value, Value)>
    var limit: Option<Value>

    constructor (table: Value)
      ensures this.table == table && wheres == [] && limit == None
    {
      this.table := table;
      wheres := [];
      limit := None;
    }

    /** `$query->where($field, $value)` adds one equality condition. */
    method Where(field: Value, value: Value)
      modifies this
      ensures wheres == old(wheres) + [(field, value)] && limit == old(limit)
    {
      wheres := wheres + [(field, value)];
    }

    /** `$query->limit($n)` */
    method Limit(n: Value)
      modifies this
      ensures limit == Some(n) && wheres == old(wheres)
    {
      limit := Some(n);
    }

    /** `$query->get()`: the select the builder now stands for. */
    function Call(): Call
      reads this
    {
      Select(table, wheres, limit)
    }
  }

  // ----- InsertAction::execute -----

  /** Insert proceeds only on a non-empty array under `data`: an object or a list. */
  predicate InsertAccepts(input: Body)
  {
    var data := GetOr(input, "data", Null);
    (data.Object? && data.members != []) || (data.Array? && data.items != [])
  }

  function InsertExecute(input: Body, db: Db): (r: Exchange<Call>)
    ensures !InsertAccepts(input) ==> r == Rejected(INSERT_REQUIRED)
    ensures r.executed.Some? <==> InsertAccepts(input)
    ensures InsertAccepts(input) ==>
      && r.executed.value == InsertGetId(GetOr(input, "table", Null), GetOr(input, "data", Null))
      && r.outcome == Reply(200, Inserted(INSERTED, db.lastId))
  {
    var table := GetOr(input, "table", Null);
    var data := GetOr(input, "data", Null);
    if !Truthy(data) || !IsArray(data) then Rejected(INSERT_REQUIRED)
    else Exchange(Some(InsertGetId(table, data)), Reply(200, Inserted(INSERTED, db.lastId)))
  }

  // ----- UpdateAction::execute -----

  predicate UpdateFieldsPresent(input: Body)
  {
    Truthy(GetOr(input, "primary_key_field", Null)) && Truthy(GetOr(input, "primary_key_value", Null))
      && Truthy(GetOr(input, "data", Null))
  }

  /**
   * `update` takes an array of column values; any other truthy `data`
   * passes the check above and then fails the builder's parameter type.
   */
  function UpdateExecute(input: Body, db: Db): (r: Exchange<Call>)
    ensures !UpdateFieldsPresent(input) ==> r == Rejected(UPDATE_REQUIRED)
    ensures r.outcome.Raised? <==> UpdateFieldsPresent(input) && !IsArray(GetOr(input, "data", Null))
    ensures r.outcome.Raised? ==> r.executed == None && r.outcome.exception == TypeError
    ensures r.executed.Some? <==> UpdateFieldsPresent(input) && IsArray(GetOr(input, "data", Null))
    ensures r.executed.Some? ==>
      && r.executed.value == UpdateWhere(GetOr(input, "table", Null),
           GetOr(input, "primary_key_field", Null), GetOr(input, "primary_key_value", Null),
           GetOr(input, "data", Null))
      && r.outcome == Reply(200, Affected(db.affected, UPDATED, NOT_UPDATED))
  {
    var table := GetOr(input, "table", Null);
    var field := GetOr(input, "primary_key_field", Null);
    var key := GetOr(input, "primary_key_value", Null);
    var data := GetOr(input, "data", Null);
    if !Truthy(field) || !Truthy(key) || !Truthy(data) then Rejected(UPDATE_REQUIRED)
    else if !IsArray(data) then Exchange(None, Raised(TypeError))
    else
      Exchange(Some(UpdateWhere(table, field, key, data)),
               Reply(200, Affected(db.affected, UPDATED, NOT_UPDATED)))
  }

  // ----- DeleteAction::execute -----

  predicate DeleteFieldsPresent(input: Body)
  {
    Truthy(GetOr(input, "primary_key_field", Null)) && Truthy(GetOr(input, "primary_key_value", Null))
  }

  function DeleteExecute(input: Body, db: Db): (r: Exchange<Call>)
    ensures !DeleteFieldsPresent(input) ==> r == Rejected(DELETE_REQUIRED)
    ensures r.executed.Some? <==> DeleteFieldsPresent(input)
    ensures DeleteFieldsPresent(input) ==>
      && r.executed.value == DeleteWhere(GetOr(input, "table", Null),
           GetOr(input, "primary_key_field", Null), GetOr(input, "primary_key_value", Null))
      && r.outcome == Reply(200, Affected(db.affected, DELETED, NOT_DELETED))
  {
    var table := GetOr(input, "table", Null);
    var field := GetOr(input, "primary_key_field", Null);
    var key := GetOr(input, "primary_key_value", Null);
    if !Truthy(field) || !Truthy(key) then Rejected(DELETE_REQUIRED)
    else
      Exchange(Some(DeleteWhere(table, field, key)),
               Reply(200, Affected(db.affected, DELETED, NOT_DELETED)))
  }

  // ----- GetAction::execute -----

  /** The key condition is added only when both key field and key value are truthy. */
  function KeyWhere(input: Body): (ws: seq<(Value, Value)>)
    ensures |ws| <= 1
    ensures ws != [] <==>
      Truthy(GetOr(input, "primary_key_field", Null)) && Truthy(GetOr(input, "primary_key_value", Null))
    ensures ws != [] ==>
      ws[0] == (GetOr(input, "primary_key_field", Null), GetOr(input, "primary_key_value", Null))
  {
    var field := GetOr(input, "primary_key_field", Null);
    var key := GetOr(input, "primary_key_value", Null);
    if Truthy(field) && Truthy(key) then [(field, key)] else []
  }

  /** The filter conditions: one per entry, only when `filters` is a non-empty array. */
  function FilterWheres(input: Body): (ws: seq<(Value, Value)>)
    ensures var filters := GetOr(input, "filters", Array([]));
      && (filters.Object? ==> |ws| == |filters.members|)
      && (filters.Array? ==> |ws| == |filters.items|)
      && (!IsArray(filters) ==> ws == [])
      && (IsArray(filters) ==> ws == Entries(filters))
  {
    var filters := GetOr(input, "filters", Array([]));
    if Truthy(filters) && IsArray(filters) then Entries(filters) else []
  }

  /** The select `GetAction` runs. */
  function SelectCall(input: Body): (c: Call)
    ensures c.Select? && c.table == GetOr(input, "table", Null)
    ensures |c.wheres| == |KeyWhere(input)| + |FilterWheres(input)|
    ensures c.wheres[..|KeyWhere(input)|] == KeyWhere(input)
    ensures c.wheres[|KeyWhere(input)|..] == FilterWheres(input)
    ensures "limit" !in Keys(input) ==> c.limit == Some(Int(10))
    ensures "limit" in Keys(input) ==> c.limit.Some? && ("limit", c.limit.value) in input
  {
    Select(GetOr(input, "table", Null), KeyWhere(input) + FilterWheres(input),
           Some(GetOr(input, "limit", Int(10))))
  }

  method GetExecute(input: Body, db: Db) returns (r: Exchange<Call>)
    ensures r == Exchange(Some(SelectCall(input)), Reply(200, Listing(|db.rows|, db.rows)))
  {
    var table := GetOr(input, "table", Null);
    var field := GetOr(input, "primary_key_field", Null);
    var key := GetOr(input, "primary_key_value", Null);
    var filters := GetOr(input, "filters", Array([]));
    var limit := GetOr(input, "limit", Int(10));

    var query := new QueryBuilder(table);
    if Truthy(field) && Truthy(key) {
      query.Where(field, key);
    }
    assert query.wheres == KeyWhere(input);
    if Truthy(filters) && IsArray(filters) {
      AddFilters(query, Entries(filters));
    }
    assert query.wheres == KeyWhere(input) + FilterWheres(input);
    query.Limit(limit);
    r := Exchange(Some(query.Call()), Reply(200, Listing(|db.rows|, db.rows)));
  }

  /** `foreach ($filters as $field => $value) { $query->where($field, $value); }` */
  method AddFilters(query: QueryBuilder, entries: seq<(Value, Value)>)
    modifies query
    ensures query.wheres == old(query.wheres) + entries && query.limit == old(query.limit)
  {
    var i := 0;
    while i < |entries|
      invariant 0 <= i <= |entries|
      invariant query.wheres == old(query.wheres) + entries[..i] && query.limit == old(query.limit)
    {
      assert entries[..i + 1] == entries[..i] + [entries[i]];
      query.Where(entries[i].0, entries[i].1);
      i := i + 1;
    }
    assert entries[..i] == entries;
  }

  // ----- DynamicController::handle -----

  /** `!$table || !$type` with the type already lower-cased fails this. */
  predicate TargetPresent(table: string, kind: string)
  {
    Truthy(Str(table)) && Truthy(Str(Lower(kind)))
  }

  /** What the selected action answers. */
  function Execute(a: Action, input: Body, db: Db): Exchange<Call>
  {
    match a
    case Insert => InsertExecute(input, db)
    case Update => UpdateExecute(input, db)
    case Delete => DeleteExecute(input, db)
    case Get => Exchange(Some(SelectCall(input)), Reply(200, Listing(|db.rows|, db.rows)))
  }

  /**
   * `handle($request, $table, $type)`: the request is changed only when an
   * action is selected, and then only by putting the URL table into it.
   */
  method Handle(request: Request, table: string, kind: string, db: Db) returns (r: Exchange<Call>)
    modifies request
    ensures !TargetPresent(table, kind) ==>
      r == Rejected(REQUIRED_IN_URL) && request.input == old(request.input)
    ensures TargetPresent(table, kind) && ParseAction(kind).None? ==>
      r == Rejected(INVALID_TYPE) && request.input == old(request.input)
    ensures TargetPresent(table, kind) && ParseAction(kind).Some? ==>
      && request.input == Put(old(request.input), "table", Str(table))
      && r == Execute(ParseAction(kind).value, request.input, db)
  {
    var t := Lower(kind);
    if !Truthy(Str(table)) || !Truthy(Str(t)) {
      return Rejected(REQUIRED_IN_URL);
    }
    var action: Action;
    if t == "insert" {
      action := Insert;
    } else if t == "update" {
      action := Update;
    } else if t == "delete" {
      action := Delete;
    } else if t == "get" {
      action := Get;
    } else {
      return Rejected(INVALID_TYPE);
    }
    request.Merge("table", Str(table));
    match action
    case Insert => r := InsertExecute(request.input, db);
    case Update => r := UpdateExecute(request.input, db);
    case Delete => r := DeleteExecute(request.input, db);
    case Get => r := GetExecute(request.input, db);
  }
}
