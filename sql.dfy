/**
 * The SQL text and parameter lists that the Django view builds by string
 * formatting. Table and column names are spliced into the text; every value
 * travels as a parameter behind a `%s` placeholder.
 */
module Sql {
  import opened Json
  import opened Text

  /** The text handed to `cursor.execute` and its parameter list. */
  datatype Statement = Statement(sql: string, params: seq<Value>)

  /** `['%s'] * n` */
  function Placeholders(n: nat): (ps: seq<string>)
    ensures |ps| == n
    ensures forall i :: 0 <= i < n ==> ps[i] == "%s"
  {
    if n == 0 then [] else ["%s"] + Placeholders(n - 1)
  }

  /** `[f"{k}=%s" for k in columns]` */
  function Assignments(columns: seq<string>): (a: seq<string>)
    ensures |a| == |columns|
    ensures forall i :: 0 <= i < |columns| ==> a[i] == columns[i] + "=%s"
  {
    if columns == [] then [] else [columns[0] + "=%s"] + Assignments(columns[1..])
  }

  lemma AssignmentsSnoc(columns: seq<string>, c: string)
    ensures Assignments(columns + [c]) == Assignments(columns) + [c + "=%s"]
  {
  }

  /** Names spliced into the text that hold no `%` of their own. */
  predicate PlainNames(names: seq<string>)
  {
    forall i :: 0 <= i < |names| ==> Percents(names[i]) == 0
  }

  /** Conditions that each hold exactly one placeholder. */
  predicate OnePlaceholderEach(clauses: seq<string>)
  {
    forall i :: 0 <= i < |clauses| ==> Percents(clauses[i]) == 1
  }

  /** The insert binds one parameter per column: the i-th column's value. */
  function InsertStatement(table: string, values: Body): (st: Statement)
    ensures |st.params| == |values|
    ensures forall i :: 0 <= i < |values| ==> st.params[i] == values[i].1
  {
    Statement(
      "INSERT INTO " + table + " (" + Join(Keys(values), ", ") + ") VALUES ("
        + Join(Placeholders(|values|), ", ") + ")",
      Values(values))
  }

  /** The update binds the i-th column's value for the i-th assignment, then the key value. */
  function UpdateStatement(table: string, values: Body, pkField: string, pkValue: Value): (st: Statement)
    ensures |st.params| == |values| + 1
    ensures forall i :: 0 <= i < |values| ==> st.params[i] == values[i].1
    ensures st.params[|values|] == pkValue
  {
    Statement(
      "UPDATE " + table + " SET " + Join(Assignments(Keys(values)), ", ")
        + " WHERE " + pkField + "=%s",
      Values(values) + [pkValue])
  }

  /** The delete binds the key value and nothing else. */
  function DeleteStatement(table: string, pkField: string, pkValue: Value): (st: Statement)
    ensures st.params == [pkValue]
  {
    Statement("DELETE FROM " + table + " WHERE " + pkField + "=%s", [pkValue])
  }

  /** The WHERE part of a select: empty when there is no condition. */
  function WhereSql(clauses: seq<string>): (w: string)
    ensures w == "" <==> clauses == []
  {
    if clauses == [] then "" else "WHERE " + Join(clauses, " AND ")
  }

  /** The select for the given conditions and their parameters; the limit is bound last. */
  function SelectStatement(table: string, clauses: seq<string>, params: seq<Value>, limit: Value): (st: Statement)
    ensures |st.params| == |params| + 1
    ensures st.params[..|params|] == params && st.params[|params|] == limit
  {
    Statement("SELECT * FROM " + table + " " + WhereSql(clauses) + " LIMIT %s", params + [limit])
  }

  // The fixed text of the statements: only the placeholders hold a `%`.
  // (Two literals per lemma keep each evaluation small.)

  lemma PlaceholderPercents()
    ensures Percents("%s") == 1 && Percents("=%s") == 1
  {
  }

  lemma SeparatorsPlain()
    ensures Percents(", ") == 0 && Percents(" WHERE ") == 0
  {
  }

  lemma InsertHeadPlain()
    ensures Percents("INSERT INTO ") == 0 && Percents(" (") == 0
  {
  }

  lemma InsertTailPlain()
    ensures Percents(") VALUES (") == 0 && Percents(")") == 0
  {
  }

  lemma UpdatePlain()
    ensures Percents("UPDATE ") == 0 && Percents(" SET ") == 0
  {
  }

  lemma DeletePlain()
    ensures Percents("DELETE FROM ") == 0
  {
  }

  lemma SpacePlain()
    ensures Percents(" ") == 0
  {
  }

  lemma SelectHeadPlain()
    ensures Percents("SELECT * FROM ") == 0
  {
  }

  lemma WherePlain()
    ensures Percents("WHERE ") == 0
  {
  }

  lemma SelectTailPercents()
    ensures Percents(" AND ") == 0 && Percents(" LIMIT %s") == 1
  {
  }

  lemma {:induction false} PlaceholdersPercents(n: nat)
    ensures TotalPercents(Placeholders(n)) == n
  {
    if n > 0 {
      PlaceholdersPercents(n - 1);
      PlaceholderPercents();
      assert Placeholders(n)[1..] == Placeholders(n - 1);
    }
  }

  lemma {:induction false} PlainNamesPercents(names: seq<string>)
    requires PlainNames(names)
    ensures TotalPercents(names) == 0
  {
    if names != [] {
      PlainNamesPercents(names[1..]);
    }
  }

  lemma {:induction false} AssignmentsPercents(columns: seq<string>)
    requires PlainNames(columns)
    ensures TotalPercents(Assignments(columns)) == |columns|
  {
    if columns != [] {
      AssignmentsPercents(columns[1..]);
      PercentsConcat(columns[0], "=%s");
      PlaceholderPercents();
      assert Assignments(columns)[1..] == Assignments(columns[1..]);
    }
  }

  /**
   * The insert binds one parameter per placeholder: the numbers of
   * placeholders, of columns and of parameters agree.
   */
  lemma InsertPlaceholdersMatchParams(table: string, values: Body)
    requires Percents(table) == 0 && PlainNames(Keys(values))
    ensures Percents(InsertStatement(table, values).sql) == |InsertStatement(table, values).params|
    ensures |InsertStatement(table, values).params| == |Keys(values)|
  {
    var cols := Join(Keys(values), ", ");
    var marks := Join(Placeholders(|values|), ", ");
    PlaceholderPercents();
    SeparatorsPlain();
    InsertHeadPlain();
    InsertTailPlain();
    JoinPercents(Keys(values), ", ");
    PlainNamesPercents(Keys(values));
    JoinPercents(Placeholders(|values|), ", ");
    PlaceholdersPercents(|values|);
    PercentsConcat5("INSERT INTO ", table, " (", cols, ") VALUES (");
    PercentsConcat("INSERT INTO " + table + " (" + cols + ") VALUES (", marks);
    PercentsConcat("INSERT INTO " + table + " (" + cols + ") VALUES (" + marks, ")");
  }

  /** The i-th parameter of the insert is the value stored under its i-th column. */
  lemma InsertParamsInKeyOrder(table: string, values: Body)
    requires UniqueKeys(values)
    ensures forall i :: 0 <= i < |values| ==>
      Lookup(values, Keys(values)[i]) == Some(InsertStatement(table, values).params[i])
  {
    forall i | 0 <= i < |values|
      ensures Lookup(values, Keys(values)[i]) == Some(InsertStatement(table, values).params[i])
    {
      LookupAt(values, i);
    }
  }

  /**
   * The update has one `k=%s` per data key and one trailing key condition;
   * its parameters are the data values in key order and then the key value.
   */
  lemma UpdatePlaceholdersMatchParams(table: string, values: Body, pkField: string, pkValue: Value)
    requires Percents(table) == 0 && Percents(pkField) == 0 && PlainNames(Keys(values))
    ensures var st := UpdateStatement(table, values, pkField, pkValue);
      Percents(st.sql) == |st.params| == |values| + 1
  {
    var sets := Join(Assignments(Keys(values)), ", ");
    PlaceholderPercents();
    SeparatorsPlain();
    UpdatePlain();
    JoinPercents(Assignments(Keys(values)), ", ");
    AssignmentsPercents(Keys(values));
    PercentsConcat5("UPDATE ", table, " SET ", sets, " WHERE ");
    PercentsConcat("UPDATE " + table + " SET " + sets + " WHERE ", pkField);
    PercentsConcat("UPDATE " + table + " SET " + sets + " WHERE " + pkField, "=%s");
  }

  lemma UpdateParamsInKeyOrder(table: string, values: Body, pkField: string, pkValue: Value)
    requires UniqueKeys(values)
    ensures var st := UpdateStatement(table, values, pkField, pkValue);
      && st.params[|values|] == pkValue
      && forall i :: 0 <= i < |values| ==>
           Assignments(Keys(values))[i] == values[i].0 + "=%s"
           && Lookup(values, values[i].0) == Some(st.params[i])
  {
    forall i | 0 <= i < |values|
      ensures Lookup(values, values[i].0) == Some(values[i].1)
    {
      LookupAt(values, i);
    }
  }

  /** The delete has exactly one placeholder, bound to the key value. */
  lemma DeletePlaceholdersMatchParams(table: string, pkField: string, pkValue: Value)
    requires Percents(table) == 0 && Percents(pkField) == 0
    ensures var st := DeleteStatement(table, pkField, pkValue);
      Percents(st.sql) == |st.params| == 1 && st.params[0] == pkValue
  {
    PlaceholderPercents();
    SeparatorsPlain();
    DeletePlain();
    PercentsConcat5("DELETE FROM ", table, " WHERE ", pkField, "=%s");
  }

  /**
   * For a select built from one parameter per condition, each condition
   * holding one placeholder: the placeholders match the parameters, and the
   * limit is the last parameter.
   */
  lemma SelectPlaceholdersMatchParams(table: string, clauses: seq<string>, params: seq<Value>, limit: Value)
    requires Percents(table) == 0 && |clauses| == |params|
    requires OnePlaceholderEach(clauses)
    ensures var st := SelectStatement(table, clauses, params, limit);
      Percents(st.sql) == |st.params| == |params| + 1 && st.params[|params|] == limit
  {
    WherePercents(clauses);
    SelectHeadPlain();
    SpacePlain();
    SelectTailPercents();
    PercentsConcat5("SELECT * FROM ", table, " ", WhereSql(clauses), " LIMIT %s");
  }

  /** Conditions made of some one-placeholder clauses and then `k=%s` per plain column. */
  lemma ConditionsPercents(first: seq<string>, columns: seq<string>)
    requires OnePlaceholderEach(first) && PlainNames(columns)
    ensures OnePlaceholderEach(first + Assignments(columns))
  {
    PlaceholderPercents();
    forall i | 0 <= i < |columns|
      ensures Percents(Assignments(columns)[i]) == 1
    {
      PercentsConcat(columns[i], "=%s");
    }
  }

  lemma WherePercents(clauses: seq<string>)
    requires OnePlaceholderEach(clauses)
    ensures Percents(WhereSql(clauses)) == |clauses|
  {
    if clauses != [] {
      WherePlain();
      SelectTailPercents();
      ClausesPercents(clauses);
      JoinPercents(clauses, " AND ");
      PercentsConcat("WHERE ", Join(clauses, " AND "));
    }
  }

  lemma {:induction false} ClausesPercents(clauses: seq<string>)
    requires OnePlaceholderEach(clauses)
    ensures TotalPercents(clauses) == |clauses|
  {
    if clauses != [] {
      ClausesPercents(clauses[1..]);
    }
  }

  /** Where the WHERE keyword would stand in a select on `table`. */
  function WherePosition(table: string): nat
  {
    |"SELECT * FROM "| + |table| + 1
  }

  /** The select carries a WHERE clause exactly when there is at least one condition. */
  lemma SelectWhereIffConditions(table: string, clauses: seq<string>, params: seq<Value>, limit: Value)
    ensures var st := SelectStatement(table, clauses, params, limit);
      var p := WherePosition(table);
      p + 6 <= |st.sql| && (st.sql[p..p + 6] == "WHERE " <==> clauses != [])
  {
    var st := SelectStatement(table, clauses, params, limit);
    var p := WherePosition(table);
    var head := "SELECT * FROM " + table + " ";
    assert |head| == p;
    if clauses == [] {
      assert st.sql == head + " LIMIT %s";
      assert st.sql[p..p + 6] == " LIMIT";
    } else {
      var rest := "WHERE " + Join(clauses, " AND ") + " LIMIT %s";
      assert st.sql == head + rest;
      assert st.sql[p..p + 6] == rest[..6] == "WHERE ";
    }
  }
}
