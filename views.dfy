/**
 * The Django view: the dispatcher `dynamic_api` and the four handlers
 * `insert_action`, `update_action`, `delete_action` and `get_action`.
 * Each handler reads its fields from the request dictionary, validates
 * them with Python's truthiness, builds one SQL statement and maps the
 * database's answer to a JSON envelope. The database call is abstracted:
 * the handler records the statement it would execute and takes the
 * database's answer as the input `db`.
 */
module Views {
  import opened Json
  import opened Text
  import opened Envelope
  import opened Dispatch
  import opened Sql

  /** Python truthiness: `not v` holds exactly when this is false. */
  predicate Truthy(v: Value)
    ensures !Truthy(v) <==> v in {Null, Bool(false), Int(0), Str(""), Object([]), Array([])}
  {
    match v
    case Null => false
    case Bool(b) => b
    case Int(i) => i != 0
    case Str(s) => s != ""
    case Object(members) => members != []
    case Array(items) => items != []
  }

  /** `data.get(key)`: None when the key is absent. */
  function Field(data: Body, key: string): Value
  {
    GetOr(data, key, Null)
  }

  /** `str(v)`, which is how an f-string splices a value into the SQL text. */
  function Render(v: Value): (r: string)
    ensures v.Str? ==> r == v.s
    ensures v == Null ==> r == "None"
    ensures !v.Str? ==> r == Repr(v) && |r| > 0
  {
    if v.Str? then v.s else Repr(v)
  }

  /** `repr(v)` for the values a decoded JSON body can hold. */
  function Repr(v: Value): (r: string)
    ensures |r| > 0
  {
    match v
    case Null => "None"
    case Bool(b) => if b then "True" else "False"
    case Int(i) => Decimal(i)
    case Str(s) => "'" + s + "'"
    case Array(items) =>
      "[" + Join(seq(|items|, k requires 0 <= k < |items| => Repr(items[k])), ", ") + "]"
    case Object(members) =>
      "{" + Join(seq(|members|, k requires 0 <= k < |members| =>
                   assert members[k] in members;
                   "'" + members[k].0 + "': " + Repr(members[k].1)), ", ") + "}"
  }

  /**
   * `json.loads(body or '{}')` followed by `data['table'] = table`: an
   * undecodable body (None here) becomes the empty dictionary; a body that
   * decodes to anything but an object cannot take the assignment (None
   * result: the view raises TypeError).
   */
  function RequestData(parsed: Option<Value>): (r: Option<Body>)
    ensures parsed.None? ==> r == Some([])
    ensures parsed.Some? ==> (r.Some? <==> parsed.value.Object?)
    ensures parsed.Some? && r.Some? ==> r.value == parsed.value.members
  {
    match parsed
    case None => Some([])
    case Some(v) => if v.Object? then Some(v.members) else None
  }

  // ----- insert_action -----

  /** Insert proceeds only on a non-empty dictionary under `data`. */
  predicate InsertAccepts(data: Body)
  {
    var values := Field(data, "data");
    values.Object? && |values.members| > 0
  }

  function InsertAction(data: Body, db: Db): (r: Exchange<Statement>)
    ensures !InsertAccepts(data) ==> r == Rejected(INSERT_REQUIRED)
    ensures r.executed.Some? <==> InsertAccepts(data)
    ensures InsertAccepts(data) ==>
      && r.outcome == Reply(200, Inserted(INSERTED, db.lastId))
      && r.executed.value.params == Values(Field(data, "data").members)
    ensures r.executed.Some? ==>
      r.executed.value == InsertStatement(Render(Field(data, "table")), Field(data, "data").members)
  {
    var values := Field(data, "data");
    if !Truthy(values) || !values.Object? then Rejected(INSERT_REQUIRED)
    else
      Exchange(Some(InsertStatement(Render(Field(data, "table")), values.members)),
               Reply(200, Inserted(INSERTED, db.lastId)))
  }

  // ----- update_action -----

  /** The update's presence check: a truthy key field, a key value that is not None, truthy data. */
  predicate UpdateFieldsPresent(data: Body)
  {
    Truthy(Field(data, "primary_key_field")) && Field(data, "primary_key_value") != Null
      && Truthy(Field(data, "data"))
  }

  function UpdateAction(data: Body, db: Db): (r: Exchange<Statement>)
    ensures !UpdateFieldsPresent(data) ==> r == Rejected(UPDATE_REQUIRED)
    ensures r.outcome.Raised? <==> UpdateFieldsPresent(data) && !Field(data, "data").Object?
    ensures r.outcome.Raised? ==> r.executed == None && r.outcome.exception == AttributeError
    ensures r.executed.Some? <==> UpdateFieldsPresent(data) && Field(data, "data").Object?
    ensures r.executed.Some? ==>
      && r.outcome == Reply(200, Affected(db.affected, UPDATED, NOT_UPDATED))
      && r.executed.value.params
         == Values(Field(data, "data").members) + [Field(data, "primary_key_value")]
    ensures r.executed.Some? ==>
      r.executed.value == UpdateStatement(Render(Field(data, "table")), Field(data, "data").members,
                                          Render(Field(data, "primary_key_field")), Field(data, "primary_key_value"))
  {
    var pkField := Field(data, "primary_key_field");
    var pkValue := Field(data, "primary_key_value");
    var values := Field(data, "data");
    if !Truthy(pkField) || pkValue == Null || !Truthy(values) then Rejected(UPDATE_REQUIRED)
    else if !values.Object? then Exchange(None, Raised(AttributeError))
    else
      Exchange(Some(UpdateStatement(Render(Field(data, "table")), values.members, Render(pkField), pkValue)),
               Reply(200, Affected(db.affected, UPDATED, NOT_UPDATED)))
  }

  // ----- delete_action -----

  predicate DeleteFieldsPresent(data: Body)
  {
    Truthy(Field(data, "primary_key_field")) && Field(data, "primary_key_value") != Null
  }

  function DeleteAction(data: Body, db: Db): (r: Exchange<Statement>)
    ensures !DeleteFieldsPresent(data) ==> r == Rejected(DELETE_REQUIRED)
    ensures r.executed.Some? <==> DeleteFieldsPresent(data)
    ensures r.executed.Some? ==>
      && r.outcome == Reply(200, Affected(db.affected, DELETED, NOT_DELETED))
      && r.executed.value.params == [Field(data, "primary_key_value")]
    ensures r.executed.Some? ==>
      r.executed.value == DeleteStatement(Render(Field(data, "table")),
                                          Render(Field(data, "primary_key_field")), Field(data, "primary_key_value"))
  {
    var pkField := Field(data, "primary_key_field");
    var pkValue := Field(data, "primary_key_value");
    if !Truthy(pkField) || pkValue == Null then Rejected(DELETE_REQUIRED)
    else
      Exchange(Some(DeleteStatement(Render(Field(data, "table")), Render(pkField), pkValue)),
               Reply(200, Affected(db.affected, DELETED, NOT_DELETED)))
  }

  // ----- get_action -----

  /** The key condition is used when the field is truthy and the value is not None. */
  predicate KeyUsed(pkField: Value, pkValue: Value)
  {
    Truthy(pkField) && pkValue != Null
  }

  function KeyClause(pkField: Value, pkValue: Value): seq<string>
  {
    if KeyUsed(pkField, pkValue) then [Render(pkField) + "=%s"] else []
  }

  function KeyParam(pkField: Value, pkValue: Value): seq<Value>
  {
    if KeyUsed(pkField, pkValue) then [pkValue] else []
  }

  /** `data.get('filters', {})` */
  function Filters(data: Body): Value
  {
    GetOr(data, "filters", Object([]))
  }

  /** `data.get('limit', 10)` */
  function Limit(data: Body): Value
  {
    GetOr(data, "limit", Int(10))
  }

  /**
   * What `get_action` does: the key condition first, then one condition per
   * filter in iteration order, the limit bound last; `filters` that is not
   * a dictionary makes `.items()` raise before any SQL runs.
   */
  function GetSpec(data: Body, db: Db): (r: Exchange<Statement>)
    ensures r.executed.Some? <==> Filters(data).Object?
    ensures r.executed.None? ==> r.outcome == Raised(AttributeError)
    ensures r.executed.Some? ==> r.outcome == Reply(200, Listing(|db.rows|, db.rows))
  {
    var pkField := Field(data, "primary_key_field");
    var pkValue := Field(data, "primary_key_value");
    var filters := Filters(data);
    if !filters.Object? then Exchange(None, Raised(AttributeError))
    else
      Exchange(
        Some(SelectStatement(
          Render(Field(data, "table")),
          KeyClause(pkField, pkValue) + Assignments(Keys(filters.members)),
          KeyParam(pkField, pkValue) + Values(filters.members),
          Limit(data))),
        Reply(200, Listing(|db.rows|, db.rows)))
  }

  method GetAction(data: Body, db: Db) returns (r: Exchange<Statement>)
    ensures r == GetSpec(data, db)
  {
    var table := Field(data, "table");
    var pkField := Field(data, "primary_key_field");
    var pkValue := Field(data, "primary_key_value");
    var filters := Filters(data);
    var limit := Limit(data);

    var whereClauses: seq<string> := [];
    var params: seq<Value> := [];
    if Truthy(pkField) && pkValue != Null {
      whereClauses := whereClauses + [Render(pkField) + "=%s"];
      params := params + [pkValue];
    }
    if !filters.Object? {
      return Exchange(None, Raised(AttributeError));
    }
    var items := filters.members;
    var i := 0;
    while i < |items|
      invariant 0 <= i <= |items|
      invariant whereClauses == KeyClause(pkField, pkValue) + Assignments(Keys(items[..i]))
      invariant params == KeyParam(pkField, pkValue) + Values(items[..i])
    {
      var (field, value) := items[i];
      PrefixStep(items, i);
      AssignmentsSnoc(Keys(items[..i]), field);
      SnocAssoc(KeyClause(pkField, pkValue), Assignments(Keys(items[..i])), field + "=%s");
      SnocAssoc(KeyParam(pkField, pkValue), Values(items[..i]), value);
      whereClauses := whereClauses + [field + "=%s"];
      params := params + [value];
      i := i + 1;
    }
    assert items[..i] == items;
    var whereSql := if |whereClauses| > 0 then "WHERE " + Join(whereClauses, " AND ") else "";
    assert whereSql == WhereSql(whereClauses);
    var sql := "SELECT * FROM " + Render(table) + " " + whereSql + " LIMIT %s";
    assert Statement(sql, params + [limit]) == SelectStatement(Render(table), whereClauses, params, limit);
    params := params + [limit];
    r := Exchange(Some(Statement(sql, params)), Reply(200, Listing(|db.rows|, db.rows)));
  }

  // ----- dynamic_api -----

  /** `not table or not type`, with the type already lower-cased, fails this. */
  predicate TargetPresent(table: string, kind: string)
  {
    table != "" && Lower(kind) != ""
  }

  /** The handler the dispatcher hands the request dictionary to. */
  function Handler(a: Action, data: Body, db: Db): Exchange<Statement>
  {
    match a
    case Insert => InsertAction(data, db)
    case Update => UpdateAction(data, db)
    case Delete => DeleteAction(data, db)
    case Get => GetSpec(data, db)
  }

  /**
   * `dynamic_api(request, table, type)`: reject an empty table or type,
   * decode the body, put the URL table into it, then route on the
   * lower-cased type.
   */
  method DynamicApi(table: string, kind: string, parsed: Option<Value>, db: Db)
    returns (r: Exchange<Statement>)
    ensures !TargetPresent(table, kind) ==> r == Rejected(REQUIRED_IN_URL)
    ensures TargetPresent(table, kind) && RequestData(parsed).None? ==>
      r == Exchange(None, Raised(TypeError))
    ensures TargetPresent(table, kind) && RequestData(parsed).Some? ==>
      var data := Put(RequestData(parsed).value, "table", Str(table));
      r == match ParseAction(kind)
           case None => Rejected(INVALID_TYPE)
           case Some(a) => Handler(a, data, db)
  {
    var t := Lower(kind);
    if table == "" || t == "" {
      return Rejected(REQUIRED_IN_URL);
    }
    var body := RequestData(parsed);
    if body.None? {
      return Exchange(None, Raised(TypeError));
    }
    var data := Put(body.value, "table", Str(table));
    if t == "insert" {
      r := InsertAction(data, db);
    } else if t == "update" {
      r := UpdateAction(data, db);
    } else if t == "delete" {
      r := DeleteAction(data, db);
    } else if t == "get" {
      r := GetAction(data, db);
    } else {
      r := Rejected(INVALID_TYPE);
    }
  }

  // ----- properties -----

  /** The URL table replaces any `table` the body carried; every other field is untouched. */
  lemma UrlTableOverridesBody(body: Body, table: string)
    ensures Field(Put(body, "table", Str(table)), "table") == Str(table)
    ensures Render(Field(Put(body, "table", Str(table)), "table")) == table
    ensures forall k :: k != "table" ==> Field(Put(body, "table", Str(table)), k) == Field(body, k)
  {
  }

  /** The parameters of the select: key value if used, filter values, limit. */
  lemma GetSpecParams(data: Body, db: Db)
    requires Filters(data).Object?
    ensures GetSpec(data, db).executed.Some?
    ensures GetSpec(data, db).executed.value.params ==
      KeyParam(Field(data, "primary_key_field"), Field(data, "primary_key_value"))
      + Values(Filters(data).members) + [Limit(data)]
  {
  }

  /**
   * When the key condition is used, the select binds the key value first;
   * the limit is bound last. There is one parameter for the key when it is
   * used, one per filter, and one for the limit.
   */
  lemma GetKeyFirstLimitLast(data: Body, db: Db)
    requires Filters(data).Object?
    ensures var pkField := Field(data, "primary_key_field");
      var pkValue := Field(data, "primary_key_value");
      var st := GetSpec(data, db).executed.value;
      && |st.params| == (if KeyUsed(pkField, pkValue) then 1 else 0) + |Filters(data).members| + 1
      && (KeyUsed(pkField, pkValue) ==> st.params[0] == pkValue)
      && st.params[|st.params| - 1] == Limit(data)
  {
    GetSpecParams(data, db);
  }

  /** After the key value come the filter values, in the filters' iteration order. */
  lemma GetFiltersInOrder(data: Body, db: Db)
    requires Filters(data).Object?
    ensures var filters := Filters(data).members;
      var st := GetSpec(data, db).executed.value;
      var k := |KeyParam(Field(data, "primary_key_field"), Field(data, "primary_key_value"))|;
      && k + |filters| < |st.params|
      && st.params[k..k + |filters|] == Values(filters)
  {
    GetSpecParams(data, db);
    var filters := Filters(data).members;
    var head := KeyParam(Field(data, "primary_key_field"), Field(data, "primary_key_value"));
    var ps := GetSpec(data, db).executed.value.params;
    assert ps == head + Values(filters) + [Limit(data)];
    assert ps[|head|..|head| + |filters|] == Values(filters);
  }

  /** The select has a WHERE clause exactly when the key condition is used or some filter is given. */
  lemma GetWhereIffConditions(data: Body, db: Db)
    requires Filters(data).Object?
    ensures var st := GetSpec(data, db).executed.value;
      var p := WherePosition(Render(Field(data, "table")));
      && p + 6 <= |st.sql|
      && (st.sql[p..p + 6] == "WHERE " <==>
            KeyUsed(Field(data, "primary_key_field"), Field(data, "primary_key_value"))
            || Filters(data).members != [])
  {
    var pkField := Field(data, "primary_key_field");
    var pkValue := Field(data, "primary_key_value");
    var filters := Filters(data).members;
    SelectWhereIffConditions(Render(Field(data, "table")),
      KeyClause(pkField, pkValue) + Assignments(Keys(filters)),
      KeyParam(pkField, pkValue) + Values(filters), Limit(data));
  }

  /**
   * With table, key field and filter names free of `%`, the select has
   * exactly one placeholder per parameter.
   */
  lemma GetPlaceholdersMatchParams(data: Body, db: Db)
    requires Filters(data).Object?
    requires Percents(Render(Field(data, "table"))) == 0
    requires Percents(Render(Field(data, "primary_key_field"))) == 0
    requires PlainNames(Keys(Filters(data).members))
    ensures var st := GetSpec(data, db).executed.value;
      Percents(st.sql) == |st.params|
  {
    var pkField := Field(data, "primary_key_field");
    var pkValue := Field(data, "primary_key_value");
    var filters := Filters(data).members;
    var first := KeyClause(pkField, pkValue);
    assert OnePlaceholderEach(first) by {
      PlaceholderPercents();
      PercentsConcat(Render(pkField), "=%s");
    }
    ConditionsPercents(first, Keys(filters));
    SelectPlaceholdersMatchParams(Render(Field(data, "table")), first + Assignments(Keys(filters)),
      KeyParam(pkField, pkValue) + Values(filters), Limit(data));
  }
}
